/**
 * The Ruby values a form submission hands to the mapping engine, and the few
 * core-library and ActiveSupport operations the engine applies to them:
 * `blank?`, truthiness, `Kernel#Array`, `keep_if`, `zip` and `x || {}`.
 */
module RubyValues {
  import opened Wrappers
  import OrderedHash

  /** `nil`, a String, an Array, or a Hash (Ruby hashes are ordered). */
  datatype Value = Nil | Str(s: string) | Arr(elems: seq<Value>) | Hash(pairs: seq<(string, Value)>)

  /** The characters matched by `[[:space:]]`: Unicode White_Space. */
  predicate IsSpace(c: char) {
    || c == ' ' || ('\t' <= c <= '\r')
    || c == '\U{85}' || c == '\U{A0}' || c == '\U{1680}'
    || ('\U{2000}' <= c <= '\U{200A}')
    || c == '\U{2028}' || c == '\U{2029}' || c == '\U{202F}' || c == '\U{205F}' || c == '\U{3000}'
  }

  /** ActiveSupport's `blank?`: nil, a whitespace-only string, an empty array or hash. */
  predicate Blank(v: Value) {
    match v
    case Nil => true
    case Str(s) => forall i :: 0 <= i < |s| ==> IsSpace(s[i])
    case Arr(e) => |e| == 0
    case Hash(p) => |p| == 0
  }

  /** Everything except `nil` (and `false`, which no form value is) is truthy. */
  predicate Truthy(v: Value) {
    !v.Nil?
  }

  /** `h[key]` on a Ruby hash: the stored value, or `nil`. */
  function ValueAt(h: seq<(string, Value)>, key: string): Value {
    OrderedHash.Get(h, key).GetOr(Nil)
  }

  /** `select { |v| not v.blank? }` (equally `keep_if`): the non-blank items, in order. */
  function KeepNonBlank(s: seq<Value>): (r: seq<Value>)
    ensures |r| <= |s|
    ensures forall i :: 0 <= i < |r| ==> !Blank(r[i])
  {
    if |s| == 0 then []
    else KeepNonBlank(s[..|s| - 1]) + (if Blank(s[|s| - 1]) then [] else [s[|s| - 1]])
  }

  /** The filter keeps exactly the non-blank items. */
  lemma {:induction false} KeepNonBlankMembers(s: seq<Value>)
    ensures forall x :: x in KeepNonBlank(s) <==> x in s && !Blank(x)
  {
    if |s| > 0 {
      KeepNonBlankMembers(s[..|s| - 1]);
      assert s == s[..|s| - 1] + [s[|s| - 1]];
    }
  }

  /** The filter leaves nothing exactly when every item is blank. */
  lemma {:induction false} KeepNonBlankEmpty(s: seq<Value>)
    ensures |KeepNonBlank(s)| == 0 <==> forall i :: 0 <= i < |s| ==> Blank(s[i])
  {
    if |s| > 0 {
      KeepNonBlankEmpty(s[..|s| - 1]);
      assert forall i :: 0 <= i < |s| - 1 ==> s[..|s| - 1][i] == s[i];
    }
  }

  /** The filter commutes with concatenation, so it keeps the input order. */
  lemma {:induction false} KeepNonBlankConcat(a: seq<Value>, b: seq<Value>)
    ensures KeepNonBlank(a + b) == KeepNonBlank(a) + KeepNonBlank(b)
    decreases |b|
  {
    if |b| == 0 {
      assert a + b == a;
    } else {
      var b' := b[..|b| - 1];
      assert (a + b)[..|a + b| - 1] == a + b';
      assert (a + b)[|a + b| - 1] == b[|b| - 1];
      KeepNonBlankConcat(a, b');
    }
  }

  /** A list with no blank item passes the filter untouched. */
  lemma {:induction false} KeepNonBlankOfPresent(s: seq<Value>)
    requires forall i :: 0 <= i < |s| ==> !Blank(s[i])
    ensures KeepNonBlank(s) == s
  {
    if |s| > 0 {
      KeepNonBlankOfPresent(s[..|s| - 1]);
      assert s == s[..|s| - 1] + [s[|s| - 1]];
    }
  }

  /** A list of blank items filters to nothing. */
  lemma {:induction false} KeepNonBlankOfBlanks(s: seq<Value>)
    requires forall i :: 0 <= i < |s| ==> Blank(s[i])
    ensures KeepNonBlank(s) == []
  {
    if |s| > 0 {
      KeepNonBlankOfBlanks(s[..|s| - 1]);
    }
  }

  /** `Hash#to_a` and `Hash#each`: each pair becomes a two-element array. */
  function PairArrays(p: seq<(string, Value)>): (r: seq<Value>)
    ensures |r| == |p|
    ensures forall i :: 0 <= i < |p| ==> r[i] == Arr([Str(p[i].0), p[i].1])
  {
    if |p| == 0 then [] else [Arr([Str(p[0].0), p[0].1])] + PairArrays(p[1..])
  }

  /** `Kernel#Array`: nil gives [], an array itself, a hash its pairs, anything else [x]. */
  function RubyArray(v: Value): Value {
    match v
    case Nil => Arr([])
    case Arr(_) => v
    case Hash(p) => Arr(PairArrays(p))
    case Str(_) => Arr([v])
  }

  /**
   * What `zip` iterates over, for a receiver or an argument: an array's
   * items or a hash's pairs. A String is not enumerable (`zip` on it raises).
   */
  function Enumerate(v: Value): Option<seq<Value>> {
    match v
    case Arr(e) => Some(e)
    case Hash(p) => Some(PairArrays(p))
    case _ => None
  }

  /** `a.zip(b)`: one pair per item of `a`, padded with nil when `b` runs out. */
  function Zip(a: seq<Value>, b: seq<Value>): (r: seq<Value>)
    ensures |r| == |a|
    ensures forall i :: 0 <= i < |a| ==> r[i] == Arr([a[i], if i < |b| then b[i] else Nil])
  {
    if |a| == 0 then []
    else [Arr([a[0], if |b| > 0 then b[0] else Nil])] + Zip(a[1..], if |b| > 0 then b[1..] else [])
  }

  /** `attributes[i] || {}`: the i-th attribute hash, or an empty one when missing or nil. */
  function AttrsAt(attrs: seq<Value>, i: nat): (r: Value)
    ensures i < |attrs| && Truthy(attrs[i]) ==> r == attrs[i]
    ensures !(i < |attrs| && Truthy(attrs[i])) ==> r == Hash([])
  {
    if i < |attrs| && Truthy(attrs[i]) then attrs[i] else Hash([])
  }
}
