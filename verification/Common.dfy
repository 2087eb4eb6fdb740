/** Values shared by every component: optional values, results, time and text. */
module Common {

  datatype Option<+T> = None | Some(value: T)

  /** A Go `time.Time`, as an instant; the zero `time.Time` is 0. */
  type Time = int

  const NO_TIME: Time := 0

  predicate IsZero(t: Time) {
    t == NO_TIME
  }

  /** How often `x` occurs. */
  function Count<T(==)>(items: seq<T>, x: T): nat {
    if items == [] then 0
    else Count(items[..|items| - 1], x) + if items[|items| - 1] == x then 1 else 0
  }

  lemma CountAppend<T>(items: seq<T>, last: T, x: T)
    ensures Count(items + [last], x) == Count(items, x) + if last == x then 1 else 0
  {
    assert (items + [last])[..|items|] == items;
  }

  lemma {:induction false} CountPrepend<T>(items: seq<T>, first: T, x: T)
    ensures Count([first] + items, x) == Count(items, x) + if first == x then 1 else 0
  {
    if items == [] {
      CountAppend([], first, x);
      assert [first] + items == [] + [first];
    } else {
      var init, last := items[..|items| - 1], items[|items| - 1];
      CountPrepend(init, first, x);
      CountAppend([first] + init, last, x);
      assert [first] + items == [first] + init + [last];
    }
  }

  /** A store call that takes effect, fails, or fails after taking effect. */
  datatype StoreReply = Done | Refused | DoneButFailed
  {
    predicate TookEffect() { !Refused? }
    predicate Errored() { !Done? }
  }

  /** The Unicode white space that `strings.TrimSpace` removes. */
  predicate IsSpace(c: char) {
    || '\t' <= c <= '\r'
    || c == ' '
    || c == '\U{85}'
    || c == '\U{A0}'
    || c == '\U{1680}'
    || '\U{2000}' <= c <= '\U{200A}'
    || c == '\U{2028}'
    || c == '\U{2029}'
    || c == '\U{202F}'
    || c == '\U{205F}'
    || c == '\U{3000}'
  }

  function TrimLeft(s: string): string {
    if s != "" && IsSpace(s[0]) then TrimLeft(s[1..]) else s
  }

  function TrimRight(s: string): string {
    if s != "" && IsSpace(s[|s| - 1]) then TrimRight(s[..|s| - 1]) else s
  }

  function TrimSpace(s: string): string {
    TrimRight(TrimLeft(s))
  }

  /** `strings.TrimSpace(s) == ""` */
  predicate Blank(s: string) {
    TrimSpace(s) == ""
  }

  predicate HasPrefix(s: string, prefix: string) {
    prefix <= s
  }

  predicate HasSuffix(s: string, suffix: string) {
    |suffix| <= |s| && s[|s| - |suffix|..] == suffix
  }

  /** Go's `<` on strings: lexicographic, a proper prefix first. */
  predicate Less(a: string, b: string) {
    b != "" && (a == "" || a[0] < b[0] || (a[0] == b[0] && Less(a[1..], b[1..])))
  }

  lemma {:induction false} LessIsAsymmetric(a: string, b: string)
    ensures !(Less(a, b) && Less(b, a))
  {
    if a != "" && b != "" {
      LessIsAsymmetric(a[1..], b[1..]);
    }
  }

  lemma {:induction false} LessIsTransitive(a: string, b: string, c: string)
    requires Less(a, b) && Less(b, c)
    ensures Less(a, c)
  {
    if a != "" && a[0] == b[0] == c[0] {
      LessIsTransitive(a[1..], b[1..], c[1..]);
    }
  }

  lemma {:induction false} LessIsConnected(a: string, b: string)
    ensures a == b || Less(a, b) || Less(b, a)
  {
    if a != "" && b != "" && a[0] == b[0] {
      LessIsConnected(a[1..], b[1..]);
      assert a == [a[0]] + a[1..];
      assert b == [b[0]] + b[1..];
    }
  }
}

/** Typed identifiers (internal/pathresolver). */
module Identifiers {
  import opened Common

  datatype IdKind = NamespaceId | RepoId | VolumeId | ExportId | OperationId

  function Prefix(kind: IdKind): string {
    match kind
    case NamespaceId => "ns_"
    case RepoId => "repo_"
    case VolumeId => "vol_"
    case ExportId => "export_"
    case OperationId => "op_"
  }

  predicate IsAlnum(c: char) {
    'A' <= c <= 'Z' || 'a' <= c <= 'z' || '0' <= c <= '9'
  }

  predicate IsIdChar(c: char) {
    IsAlnum(c) || c == '_' || c == '-'
  }

  predicate ValidSuffix(suffix: string) {
    && 2 <= |suffix| <= 63
    && IsAlnum(suffix[0])
    && forall i | 1 <= i < |suffix| :: IsIdChar(suffix[i])
  }

  predicate ValidId(kind: IdKind, id: string) {
    HasPrefix(id, Prefix(kind)) && ValidSuffix(id[|Prefix(kind)|..])
  }
}
