/**
 * The input side of `update_datastream`: the identifier/identifier_type
 * special case, blank removal, and the unpacking of `{value:, attributes:}`
 * hashes into two parallel lists.
 */
module Normalize {
  import opened Wrappers
  import opened RubyValues
  import opened OrderedHash

  /** The form attributes: a Ruby hash from attribute name to raw value. */
  type Params = seq<(string, Value)>

  /** The type given to an identifier posted without one. */
  const DefaultIdentifierType := "Other"

  /** `map! { |i| ['Other', i] }` */
  function PairWithDefaultType(ids: seq<Value>): (r: seq<Value>)
    ensures |r| == |ids|
    ensures forall i :: 0 <= i < |ids| ==> r[i] == Arr([Str(DefaultIdentifierType), ids[i]])
  {
    if |ids| == 0 then [] else [Arr([Str(DefaultIdentifierType), ids[0]])] + PairWithDefaultType(ids[1..])
  }

  /**
   * The identifier special case, done before anything else sees the values.
   * With a truthy `identifier_type`, that key is deleted and the identifier
   * list becomes `types.zip(identifiers)`; without one, every identifier is
   * paired with the default type. `None` stands for the NoMethodError or
   * TypeError Ruby raises when the operands are not enumerable.
   */
  function PrepareIdentifiers(values: Params): Option<Params> {
    var ids := ValueAt(values, "identifier");
    if !Truthy(ids) then Some(values)
    else
      var types := ValueAt(values, "identifier_type");
      if Truthy(types) then
        match (Enumerate(types), Enumerate(ids))
        case (Some(ts), Some(xs)) => Some(Put(Remove(values, "identifier_type"), "identifier", Arr(Zip(ts, xs))))
        case _ => None
      else if ids.Arr? then Some(Put(values, "identifier", Arr(PairWithDefaultType(ids.elems))))
      else None
  }

  /** With both lists present, identifiers are zipped onto the type list and the type key goes. */
  lemma IdentifiersZippedWithTypes(values: Params, types: seq<Value>, ids: seq<Value>)
    requires ValueAt(values, "identifier") == Arr(ids)
    requires ValueAt(values, "identifier_type") == Arr(types)
    ensures PrepareIdentifiers(values).Some?
    ensures var p := PrepareIdentifiers(values).value;
      && ValueAt(p, "identifier") == Arr(Zip(types, ids))
      && |ValueAt(p, "identifier").elems| == |types|
      && "identifier_type" !in Keys(p)
      && (forall k :: k != "identifier" && k != "identifier_type" ==> Get(p, k) == Get(values, k))
  {
    RemoveGet(values, "identifier_type");
    PutKeys(Remove(values, "identifier_type"), "identifier", Arr(Zip(types, ids)));
    PutGet(Remove(values, "identifier_type"), "identifier", Arr(Zip(types, ids)));
  }

  /** Without a type list every identifier is typed 'Other', in place. */
  lemma IdentifiersDefaultToOther(values: Params, ids: seq<Value>)
    requires ValueAt(values, "identifier") == Arr(ids)
    requires !Truthy(ValueAt(values, "identifier_type"))
    ensures PrepareIdentifiers(values).Some?
    ensures var p := PrepareIdentifiers(values).value;
      && Keys(p) == Keys(values)
      && ValueAt(p, "identifier") == Arr(PairWithDefaultType(ids))
      && (forall k :: k != "identifier" ==> Get(p, k) == Get(values, k))
  {
    assert "identifier" in Keys(values);
    PutKeys(values, "identifier", Arr(PairWithDefaultType(ids)));
    PutGet(values, "identifier", Arr(PairWithDefaultType(ids)));
  }

  /** Without identifiers the hash passes through untouched, identifier_type included. */
  lemma NoIdentifiersNoChange(values: Params)
    requires !Truthy(ValueAt(values, "identifier"))
    ensures PrepareIdentifiers(values) == Some(values)
  {
  }

  /** The special case never invents keys, and keeps a hash a hash. */
  lemma PrepareIdentifiersKeys(values: Params)
    requires PrepareIdentifiers(values).Some?
    ensures forall k :: k in Keys(PrepareIdentifiers(values).value) ==> k in Keys(values)
    ensures DistinctKeys(values) ==> DistinctKeys(PrepareIdentifiers(values).value)
  {
    var ids := ValueAt(values, "identifier");
    if Truthy(ids) {
      assert "identifier" in Keys(values);
      var types := ValueAt(values, "identifier_type");
      if Truthy(types) {
        var zipped := Arr(Zip(Enumerate(types).value, Enumerate(ids).value));
        RemoveGet(values, "identifier_type");
        PutKeys(Remove(values, "identifier_type"), "identifier", zipped);
        if DistinctKeys(values) {
          RemoveKeepsDistinct(values, "identifier_type");
          PutKeepsDistinct(Remove(values, "identifier_type"), "identifier", zipped);
        }
      } else {
        PutKeys(values, "identifier", Arr(PairWithDefaultType(ids.elems)));
        if DistinctKeys(values) {
          PutKeepsDistinct(values, "identifier", Arr(PairWithDefaultType(ids.elems)));
        }
      }
    }
  }

  /** Identifiers 123 and 456 posted with the types ISBN and LCCN, and 123 posted without a type. */
  lemma IdentifierExamples()
    ensures PrepareIdentifiers([
        ("identifier", Arr([Str("123"), Str("456")])),
        ("identifier_type", Arr([Str("ISBN"), Str("LCCN")]))])
      == Some([("identifier", Arr([Arr([Str("ISBN"), Str("123")]), Arr([Str("LCCN"), Str("456")])]))])
    ensures PrepareIdentifiers([("identifier", Arr([Str("123")]))])
      == Some([("identifier", Arr([Arr([Str("Other"), Str("123")])]))])
  {
    var v1: Params := [("identifier", Arr([Str("123"), Str("456")])), ("identifier_type", Arr([Str("ISBN"), Str("LCCN")]))];
    assert ValueAt(v1, "identifier") == Arr([Str("123"), Str("456")]);
    assert ValueAt(v1, "identifier_type") == Arr([Str("ISBN"), Str("LCCN")]);
    var rest := Remove(v1, "identifier_type");
    assert rest == [("identifier", Arr([Str("123"), Str("456")]))] by {
      assert v1[1..][1..] == [];
    }
    var zipped := Zip([Str("ISBN"), Str("LCCN")], [Str("123"), Str("456")]);
    assert zipped == [Arr([Str("ISBN"), Str("123")]), Arr([Str("LCCN"), Str("456")])];
    assert Put(rest, "identifier", Arr(zipped)) == [("identifier", Arr(zipped))];
    var v2: Params := [("identifier", Arr([Str("123")]))];
    assert ValueAt(v2, "identifier") == Arr([Str("123")]);
    assert ValueAt(v2, "identifier_type") == Nil;
    assert PairWithDefaultType([Str("123")]) == [Arr([Str("Other"), Str("123")])];
    assert PrepareIdentifiers(v2) == Some(Put(v2, "identifier", Arr([Arr([Str("Other"), Str("123")])])));
    assert Put(v2, "identifier", Arr([Arr([Str("Other"), Str("123")])]))
      == [("identifier", Arr([Arr([Str("Other"), Str("123")])]))];
  }

  /** An empty (but present) type list is truthy, so it zips every identifier away. */
  lemma EmptyTypeListDropsIdentifiers(values: Params, ids: seq<Value>)
    requires ValueAt(values, "identifier") == Arr(ids)
    requires ValueAt(values, "identifier_type") == Arr([])
    ensures ValueAt(PrepareIdentifiers(values).value, "identifier") == Arr([])
  {
    PutGet(Remove(values, "identifier_type"), "identifier", Arr(Zip([], ids)));
  }

  /** `v.keep_if { ... } if v.instance_of?(Array)` */
  function KeepIf(v: Value): Value {
    if v.Arr? then Arr(KeepNonBlank(v.elems)) else v
  }

  /** `v.first.is_a?(Hash)` (on a non-array `first` never yields a Hash). */
  predicate FirstIsHash(v: Value) {
    v.Arr? && |v.elems| > 0 && v.elems[0].Hash?
  }

  predicate AllHashes(es: seq<Value>) {
    forall i :: 0 <= i < |es| ==> es[i].Hash?
  }

  /** `entry[:value]` and `entry[:attributes]` of a hash entry. */
  function EntryField(e: Value, key: string): Value
    requires e.Hash?
  {
    ValueAt(e.pairs, key)
  }

  /** The parallel lists `vals` and `attrs` the unpacking loop builds. */
  function EntryFields(es: seq<Value>, key: string): (r: seq<Value>)
    requires AllHashes(es)
    ensures |r| == |es|
    ensures forall i :: 0 <= i < |es| ==> r[i] == EntryField(es[i], key)
  {
    if |es| == 0 then [] else EntryFields(es[..|es| - 1], key) + [EntryField(es[|es| - 1], key)]
  }

  /** One more hash entry of the loop pushes its field onto the list. */
  lemma EntryFieldsStep(es: seq<Value>, i: nat, key: string)
    requires i < |es| && AllHashes(es[..i]) && es[i].Hash?
    ensures AllHashes(es[..i + 1])
    ensures EntryFields(es[..i + 1], key) == EntryFields(es[..i], key) + [EntryField(es[i], key)]
  {
    assert es[..i + 1][..i] == es[..i];
  }

  /** The arguments `update_attribute_in_metadata` receives for one attribute. */
  datatype Args = Args(vals: seq<Value>, attrs: seq<Value>)

  /**
   * What one `(k, v)` pair of the loop in `update_datastream` hands on.
   * `None` is an exception: `nil.first` raises, and so does `entry[:value]` on
   * a non-hash entry once the first entry was a hash.
   */
  function Dispatch(v: Value): Option<Args> {
    var raw := KeepIf(v);
    if raw.Nil? then None
    else if FirstIsHash(raw) then
      if AllHashes(raw.elems) then Some(Args(EntryFields(raw.elems, "value"), EntryFields(raw.elems, "attributes")))
      else None
    else Some(Args(RubyArray(raw).elems, []))
  }

  /** Exactly two inputs raise: nil, and hash entries mixed with other items. */
  lemma DispatchRaises(v: Value)
    ensures Dispatch(v).None? <==>
      v.Nil? || (FirstIsHash(KeepIf(v)) && !AllHashes(KeepIf(v).elems))
  {
  }

  /** Hash entries split into values and attributes of equal length, in input order. */
  lemma DispatchSplitsEntries(v: Value)
    requires v.Arr?
    requires FirstIsHash(KeepIf(v)) && AllHashes(KeepIf(v).elems)
    ensures var kept := KeepNonBlank(v.elems);
      && Dispatch(v).Some?
      && |Dispatch(v).value.vals| == |Dispatch(v).value.attrs| == |kept|
      && (forall i :: 0 <= i < |kept| ==>
            Dispatch(v).value.vals[i] == ValueAt(kept[i].pairs, "value")
            && Dispatch(v).value.attrs[i] == ValueAt(kept[i].pairs, "attributes"))
  {
  }

  /** Plain lists lose their blank items and carry no attributes. */
  lemma DispatchFiltersPlainLists(v: Value)
    requires v.Arr? && !FirstIsHash(KeepIf(v))
    ensures Dispatch(v) == Some(Args(KeepNonBlank(v.elems), []))
  {
  }

  /** A plain list `["", "a", nil, "b"]` is handed on as `["a", "b"]`. */
  lemma BlankFilteringExample()
    ensures Dispatch(Arr([Str(""), Str("a"), Nil, Str("b")])) == Some(Args([Str("a"), Str("b")], []))
  {
    var s := [Str(""), Str("a"), Nil, Str("b")];
    assert !Blank(Str("a")) by { assert !IsSpace("a"[0]); }
    assert !Blank(Str("b")) by { assert !IsSpace("b"[0]); }
    assert KeepNonBlank(s[..1]) == [] by { assert s[..1][..0] == []; }
    assert KeepNonBlank(s[..2]) == [Str("a")] by { assert s[..2][..1] == s[..1]; }
    assert KeepNonBlank(s[..3]) == [Str("a")] by { assert s[..3][..2] == s[..2]; }
    assert KeepNonBlank(s) == [Str("a"), Str("b")] by { assert s[..3] == s[..|s| - 1]; }
  }

  /**
   * The loop at the heart of the unpacking: walk the entries, pushing
   * `entry[:value]` and `entry[:attributes]`; `ok` is false when an entry is
   * not a hash (where Ruby raises).
   */
  method Unpack(entries: seq<Value>) returns (ok: bool, vals: seq<Value>, attrs: seq<Value>)
    ensures ok <==> AllHashes(entries)
    ensures ok ==> vals == EntryFields(entries, "value") && attrs == EntryFields(entries, "attributes")
    ensures ok ==> |vals| == |attrs| == |entries|
  {
    vals, attrs := [], [];
    var i := 0;
    while i < |entries|
      invariant 0 <= i <= |entries|
      invariant AllHashes(entries[..i])
      invariant vals == EntryFields(entries[..i], "value")
      invariant attrs == EntryFields(entries[..i], "attributes")
    {
      var entry := entries[i];
      if !entry.Hash? {
        assert !AllHashes(entries);
        return false, vals, attrs;
      }
      EntryFieldsStep(entries, i, "value");
      EntryFieldsStep(entries, i, "attributes");
      vals := vals + [EntryField(entry, "value")];
      attrs := attrs + [EntryField(entry, "attributes")];
      i := i + 1;
    }
    assert entries[..i] == entries;
    ok := true;
  }
}
