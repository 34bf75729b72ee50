/** Class-tagged identities, their text form and their order (src/types.cpp, include/ifabric/types.hpp). */
module Identities {
  import opened Ordering

  datatype Option<+T> = None | Some(value: T)

  datatype Result<+T, +E> = Success(value: T) | Failure(error: E)

  datatype IdClass =
    | DomainClass | FabricClass | SiteClass | PodClass | RackClass | DeviceClass | PortClass | LinkClass
    | PolicyClass | IntentClass | TenantClass | WorkloadClass | ServiceClass | ConflictClass | ActorClass
    | ProposalClass | GenerationClass
  {
    /** The enumeration value, which orders identities of different classes. */
    function Code(): nat {
      match this
      case DomainClass => 0
      case FabricClass => 1
      case SiteClass => 2
      case PodClass => 3
      case RackClass => 4
      case DeviceClass => 5
      case PortClass => 6
      case LinkClass => 7
      case PolicyClass => 8
      case IntentClass => 9
      case TenantClass => 10
      case WorkloadClass => 11
      case ServiceClass => 12
      case ConflictClass => 13
      case ActorClass => 14
      case ProposalClass => 15
      case GenerationClass => 16
    }

    function Prefix(): string {
      PREFIXES[Code()]
    }
  }

  const CLASSES: seq<IdClass> := [
    DomainClass, FabricClass, SiteClass, PodClass, RackClass, DeviceClass, PortClass, LinkClass,
    PolicyClass, IntentClass, TenantClass, WorkloadClass, ServiceClass, ConflictClass, ActorClass,
    ProposalClass, GenerationClass]

  const PREFIXES: seq<string> := [
    "dom", "fab", "site", "pod", "rack", "dev", "port", "link",
    "pol", "int", "ten", "wl", "svc", "cfl", "actor", "prop", "gen"]

  const MAX_IDENTITY_LENGTH := 96

  datatype AnyId = AnyId(klass: IdClass, local: string)

  function Str(id: AnyId): string {
    id.klass.Prefix() + "." + id.local
  }

  predicate IsAlnum(c: char) {
    'a' <= c <= 'z' || 'A' <= c <= 'Z' || '0' <= c <= '9'
  }

  predicate ValidName(name: string) {
    && 0 < |name| <= MAX_IDENTITY_LENGTH
    && IsAlnum(name[0])
    && forall i :: 0 <= i < |name| ==> IsAlnum(name[i]) || name[i] == '.' || name[i] == '_' || name[i] == '-'
  }

  /** The position of the first dot, or the length of the text. */
  function FirstDot(text: string): (n: nat)
    ensures n <= |text| && (n < |text| ==> text[n] == '.') && forall i :: 0 <= i < n ==> text[i] != '.'
  {
    if text == [] || text[0] == '.' then 0
    else 1 + FirstDot(text[1..])
  }

  function ClassFromPrefix(prefix: string, i: nat := 0): (r: Option<IdClass>)
    requires i <= |CLASSES|
    ensures r.Some? ==> r.value.Prefix() == prefix
    decreases |CLASSES| - i
  {
    if i == |CLASSES| then None
    else if PREFIXES[i] == prefix then Some(CLASSES[i])
    else ClassFromPrefix(prefix, i + 1)
  }

  function ParseId(text: string): Option<AnyId> {
    var dot := FirstDot(text);
    if dot == |text| then None
    else
      match ClassFromPrefix(text[..dot])
      case None => None
      case Some(klass) => if ValidName(text[dot + 1..]) then Some(AnyId(klass, text[dot + 1..])) else None
  }

  lemma {:induction false} PrefixFound(klass: IdClass, i: nat)
    requires i <= klass.Code()
    ensures ClassFromPrefix(klass.Prefix(), i) == Some(klass)
    decreases klass.Code() - i
  {
    if i < klass.Code() {
      if PREFIXES[i] == klass.Prefix() {
        PrefixesDistinct(i, klass.Code());
      }
      PrefixFound(klass, i + 1);
    }
  }

  lemma PrefixesDistinct(i: nat, j: nat)
    requires i < |PREFIXES| && j < |PREFIXES| && PREFIXES[i] == PREFIXES[j]
    ensures i == j
  {
    var a, b := PREFIXES[i], PREFIXES[j];
    assert |a| == |b| && forall k :: 0 <= k < |a| ==> a[k] == b[k];
  }

  lemma PrefixHasNoDot(klass: IdClass)
    ensures '.' !in klass.Prefix()
  {
  }

  /** The text form determines the identity, so the interning table keyed by text is keyed by identity. */
  lemma StrSplits(id: AnyId)
    ensures FirstDot(Str(id)) == |id.klass.Prefix()|
    ensures Str(id)[..|id.klass.Prefix()|] == id.klass.Prefix()
    ensures Str(id)[|id.klass.Prefix()| + 1..] == id.local
  {
    PrefixHasNoDot(id.klass);
    var n, text := |id.klass.Prefix()|, Str(id);
    assert text[n] == '.';
    forall i | 0 <= i < n
      ensures text[i] != '.'
    {
      assert text[i] == id.klass.Prefix()[i];
    }
  }

  lemma StrInjective(a: AnyId, b: AnyId)
    requires Str(a) == Str(b)
    ensures a == b
  {
    StrSplits(a);
    StrSplits(b);
    PrefixFound(a.klass, 0);
    PrefixFound(b.klass, 0);
  }

  /** Parsing is the exact inverse of the text form on valid names. */
  lemma ParseInvertsStr(text: string, id: AnyId)
    ensures ParseId(text) == Some(id) <==> Str(id) == text && ValidName(id.local)
  {
    if Str(id) == text {
      StrSplits(id);
      PrefixFound(id.klass, 0);
    }
    if ParseId(text) == Some(id) {
      var dot := FirstDot(text);
      assert text == text[..dot] + [text[dot]] + text[dot + 1..];
    }
  }

  // ----- order ----------------------------------------------------------------

  predicate CharLe(a: char, b: char) { a <= b }

  predicate StrLe(a: string, b: string) { LexLe(CharLe, a, b) }

  /** By class, then by local part. */
  predicate IdLe(a: AnyId, b: AnyId) {
    a.klass.Code() < b.klass.Code() || (a.klass.Code() == b.klass.Code() && StrLe(a.local, b.local))
  }

  lemma CodeInjective(a: IdClass, b: IdClass)
    requires a.Code() == b.Code()
    ensures a == b
  {
  }

  /** The texts agree up to position n, where the first one is lower. */
  predicate LowerAt(a: string, b: string, n: nat) { n < |a| && n < |b| && a[..n] == b[..n] && a[n] < b[n] }

  /** In order: one text begins the other, or is lower at the first difference. */
  lemma {:induction false} StrLeIff(a: string, b: string)
    ensures StrLe(a, b) <==> a <= b || exists n: nat :: LowerAt(a, b, n)
  {
    if a != "" && b != "" && a[0] == b[0] {
      StrLeIff(a[1..], b[1..]);
      assert a == [a[0]] + a[1..] && b == [b[0]] + b[1..];
      if n: nat :| LowerAt(a[1..], b[1..], n) {
        assert a[..n + 1] == [a[0]] + a[1..][..n] && b[..n + 1] == [b[0]] + b[1..][..n];
        assert LowerAt(a, b, n + 1);
      }
      if n: nat :| LowerAt(a, b, n) {
        assert a[1..][..n - 1] == a[..n][1..] && b[1..][..n - 1] == b[..n][1..];
        assert LowerAt(a[1..], b[1..], n - 1);
      }
    } else if a != "" && b != "" && a[0] < b[0] {
      assert LowerAt(a, b, 0);
    } else if n: nat :| LowerAt(a, b, n) {
      LowerFirst(a, b, n);
    }
  }

  lemma LowerFirst(a: string, b: string, n: nat)
    requires LowerAt(a, b, n)
    ensures a[0] < b[0] || a[0] == b[0]
  {
    assert n > 0 ==> a[..n][0] == b[..n][0];
  }

  lemma StrLeIsTotalOrder()
    ensures TotalOrder(StrLe)
  {
    LexIsTotalOrder(CharLe);
    var lex := (a: string, b: string) => LexLe(CharLe, a, b);
    assert forall a, b :: StrLe(a, b) == lex(a, b);
  }

  lemma IdLeIsTotalOrder()
    ensures TotalOrder(IdLe)
  {
    StrLeIsTotalOrder();
    hide StrLe;
    forall a, b | IdLe(a, b) && IdLe(b, a)
      ensures a == b
    {
      CodeInjective(a.klass, b.klass);
      assert StrLe(a.local, b.local) && StrLe(b.local, a.local);
    }
    forall a, b
      ensures IdLe(a, b) || IdLe(b, a)
    {
      assert StrLe(a.local, b.local) || StrLe(b.local, a.local);
    }
    forall a, b, c | IdLe(a, b) && IdLe(b, c)
      ensures IdLe(a, c)
    {
      if a.klass.Code() == b.klass.Code() == c.klass.Code() {
        assert StrLe(a.local, b.local) && StrLe(b.local, c.local);
      }
    }
  }

  /** The least of some keys: the one a walk over a std::map meets first. */
  predicate LeastKey(x: string, nodes: set<string>) { x in nodes && forall y :: y in nodes ==> StrLe(x, y) }

  lemma {:induction false} LeastKeyExists(nodes: set<string>)
    requires nodes != {}
    ensures exists x :: LeastKey(x, nodes)
  {
    var x :| x in nodes;
    StrLeIsTotalOrder();
    hide StrLe;
    if nodes == {x} {
      assert LeastKey(x, nodes);
    } else {
      LeastKeyExists(nodes - {x});
      var z :| LeastKey(z, nodes - {x});
      var least := if StrLe(x, z) then x else z;
      assert LeastKey(least, nodes);
    }
  }

  // ----- writers ---------------------------------------------------------------

  const MAX_GENERATION: nat := 0x00FFFFFFFFFFFFFE
  const MAX_EPOCH: nat := 0xFFFFFFFFFFFFFE

  /** What a writer expects of the store it commits to. */
  datatype Fence = Fence(generation: nat, epoch: nat, incarnation: nat, writer: string)
}
