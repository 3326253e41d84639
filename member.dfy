/** The `Member` domain value. */
module Domain {

  /** Kotlin's `Long`. */
  type int64 = x: int | -0x8000_0000_0000_0000 <= x < 0x8000_0000_0000_0000

  /** A member is immutable: its setters are private and never called, so a
      Dafny datatype (a value with no mutable state) is its exact model. */
  datatype Member = Member(id: int64, name: string)

  /** The companion factory `Member.create`. */
  function Create(id: int64, name: string): (m: Member)
    ensures m.id == id && m.name == name
  {
    Member(id, name)
  }

  /** What `equals(other: Any?)` can be handed: null, a member, or an object
      of some other class. */
  datatype AnyRef = NullRef | MemberRef(member: Member) | ForeignRef

  /** `Member.equals`: identity first, then a type test, then the fields. */
  function Equals(self: Member, other: AnyRef): (r: bool)
    ensures r <==> other == MemberRef(self)
  {
    if other == MemberRef(self) then true
    else match other
      case MemberRef(o) => self.id == o.id && self.name == o.name
      case _ => false
  }

  /** Two created members are equal iff they were created from the same id
      and the same name. */
  lemma CreateEqualsIff(id1: int64, name1: string, id2: int64, name2: string)
    ensures Equals(Create(id1, name1), MemberRef(Create(id2, name2)))
            <==> id1 == id2 && name1 == name2
  {
  }

  /** `equals` is reflexive, symmetric and transitive, and never holds for a
      null or a non-member argument. */
  lemma EqualsIsEquivalence(a: Member, b: Member, c: Member)
    ensures Equals(a, MemberRef(a))
    ensures Equals(a, MemberRef(b)) ==> Equals(b, MemberRef(a))
    ensures Equals(a, MemberRef(b)) && Equals(b, MemberRef(c)) ==> Equals(a, MemberRef(c))
    ensures !Equals(a, NullRef) && !Equals(a, ForeignRef)
  {
  }
}
