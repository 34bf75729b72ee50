/** JSON values whose object members are kept sorted by key (include/ifabric/json.hpp). */
module JsonValues {
  import opened Ordering
  import opened Identities

  /**
   * A number with a fraction or an exponent, as a literal: a double stands as one that denotes it, and the
   * conversion to and from binary is not part of this model.
   */
  datatype Literal = Literal(negative: bool, digits: string, fraction: Option<string>, exponent: Option<Exponent>)

  datatype Exponent = Exponent(mark: char, sign: string, digits: string)

  datatype Json =
    | Null
    | Bool(truth: bool)
    | Int(number: int)
    | Real(literal: Literal)
    | Str(text: string)
    | Arr(items: seq<Json>)
    | Obj(members: seq<Member>)

  datatype Member = Member(key: string, value: Json)

  function Keys(members: seq<Member>): (r: seq<string>)
    ensures |r| == |members| && forall i :: 0 <= i < |r| ==> r[i] == members[i].key
  {
    seq(|members|, i requires 0 <= i < |members| => members[i].key)
  }

  /** The invariant every operation of the value type keeps: member lists sorted by key, keys unique. */
  ghost predicate WellFormed(v: Json) {
    match v
    case Arr(items) => forall i :: 0 <= i < |items| ==> WellFormed(items[i])
    case Obj(members) =>
      && StrictlySorted(StrLe, Keys(members))
      && forall i :: 0 <= i < |members| ==> WellFormed(members[i].value)
    case _ => true
  }

  predicate StrLt(a: string, b: string) { StrLe(a, b) && a != b }
}
