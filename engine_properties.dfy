/**
 * What the mapping engine guarantees: replace-not-merge writes, order and
 * attribute preservation, the missing-attribute report, partial application,
 * and idempotence of a whole update.
 */
module EngineProperties {
  import opened Wrappers
  import opened RubyValues
  import opened OrderedHash
  import opened AttributeSchema
  import opened Normalize
  import opened Metadata

  lemma ValuesOfConcat(a: seq<Node>, b: seq<Node>)
    ensures ValuesOf(a + b) == ValuesOf(a) + ValuesOf(b)
  {
    assert |ValuesOf(a + b)| == |ValuesOf(a) + ValuesOf(b)|;
    forall i | 0 <= i < |a + b| ensures ValuesOf(a + b)[i] == (ValuesOf(a) + ValuesOf(b))[i] {
      if i < |a| {} else { assert (a + b)[i] == b[i - |a|]; }
    }
  }

  /** The corrected pairing stores exactly the non-blank values, in input order. */
  lemma {:induction false} AlignedValues(vals: seq<Value>, attrs: seq<Value>)
    ensures ValuesOf(AlignedEntries(vals, attrs)) == KeepNonBlank(vals)
  {
    if |vals| > 0 {
      var last := vals[|vals| - 1];
      AlignedValues(vals[..|vals| - 1], attrs);
      ValuesOfConcat(AlignedEntries(vals[..|vals| - 1], attrs),
        if Blank(last) then [] else [Node(last, AttrsAt(attrs, |vals| - 1))]);
    }
  }

  /** Under the corrected pairing, every node carries the attributes posted with its own value. */
  lemma {:induction false} AlignedOwnAttributes(vals: seq<Value>, attrs: seq<Value>)
    ensures forall n :: n in AlignedEntries(vals, attrs) ==>
      exists i :: 0 <= i < |vals| && n == Node(vals[i], AttrsAt(attrs, i))
  {
    if |vals| > 0 {
      var init := vals[..|vals| - 1];
      AlignedOwnAttributes(init, attrs);
      forall n | n in AlignedEntries(vals, attrs)
        ensures exists i :: 0 <= i < |vals| && n == Node(vals[i], AttrsAt(attrs, i))
      {
        if n in AlignedEntries(init, attrs) {
          var i :| 0 <= i < |init| && n == Node(init[i], AttrsAt(attrs, i));
          assert vals[i] == init[i];
        } else {
          assert n == Node(vals[|vals| - 1], AttrsAt(attrs, |vals| - 1));
        }
      }
    }
  }

  /** A bulk setter stores exactly the non-blank values, in order, and drops every attribute. */
  lemma BulkValues(vals: seq<Value>)
    ensures ValuesOf(BulkEntries(vals)) == KeepNonBlank(vals)
    ensures forall n :: n in BulkEntries(vals) ==> n.attributes == Hash([])
  {
  }

  /**
   * As written, per-value insertion still stores exactly the non-blank values,
   * in input order; only their attribute hashes can go astray.
   */
  lemma AsWrittenValues(vals: seq<Value>, attrs: seq<Value>)
    ensures ValuesOf(AsWrittenEntries(vals, attrs)) == KeepNonBlank(vals)
    ensures forall i :: 0 <= i < |AsWrittenEntries(vals, attrs)| ==>
      AsWrittenEntries(vals, attrs)[i].attributes == AttrsAt(attrs, i)
  {
  }

  /** Whatever the strategy, the term ends up holding the non-blank values in order. */
  lemma WrittenValues(s: Strategy, vals: seq<Value>, attrs: seq<Value>)
    ensures ValuesOf(Written(s, vals, attrs)) == KeepNonBlank(vals)
  {
    if PerValue(s) { AsWrittenValues(vals, attrs); } else { BulkValues(vals); }
  }

  /** Without blank values, the corrected pairing gives the i-th value the i-th attributes. */
  lemma {:induction false} AlignedWithoutBlanks(vals: seq<Value>, attrs: seq<Value>)
    requires forall i :: 0 <= i < |vals| ==> !Blank(vals[i])
    ensures |AlignedEntries(vals, attrs)| == |vals|
    ensures forall i :: 0 <= i < |vals| ==> AlignedEntries(vals, attrs)[i] == Node(vals[i], AttrsAt(attrs, i))
  {
    if |vals| > 0 {
      AlignedWithoutBlanks(vals[..|vals| - 1], attrs);
    }
  }

  /** Without blank values the pairing as written and the corrected one agree. */
  lemma AsWrittenAgreesWithoutBlanks(vals: seq<Value>, attrs: seq<Value>)
    requires forall i :: 0 <= i < |vals| ==> !Blank(vals[i])
    ensures AsWrittenEntries(vals, attrs) == AlignedEntries(vals, attrs)
  {
    KeepNonBlankOfPresent(vals);
    AlignedWithoutBlanks(vals, attrs);
  }

  /**
   * As written, a blank value posted with attributes hands those attributes
   * to the next value: a note of type "general" left empty, followed by a note
   * of type "awards", stores the second note as type "general".
   */
  lemma AsWrittenMisaligns()
    ensures var vals := [Str(""), Str("text")];
      var attrs := [Hash([("type", Str("general"))]), Hash([("type", Str("awards"))])];
      && AsWrittenEntries(vals, attrs) == [Node(Str("text"), Hash([("type", Str("general"))]))]
      && AlignedEntries(vals, attrs) == [Node(Str("text"), Hash([("type", Str("awards"))]))]
      && !(exists i :: 0 <= i < |vals| && AsWrittenEntries(vals, attrs)[0] == Node(vals[i], AttrsAt(attrs, i)))
  {
    var vals := [Str(""), Str("text")];
    var attrs := [Hash([("type", Str("general"))]), Hash([("type", Str("awards"))])];
    assert !Blank(Str("text")) by { assert !IsSpace("text"[0]); }
    assert vals[..1] == [Str("")];
    assert KeepNonBlank(vals[..1]) == [];
    assert KeepNonBlank(vals) == [Str("text")];
    assert AlignedEntries(vals[..1], attrs) == [];
  }

  /** `entry[:value]` and `entry[:attributes]` of a posted `{value:, attributes:}` hash. */
  lemma EntryHashFields(v: Value, a: Value)
    ensures ValueAt([("value", v), ("attributes", a)], "value") == v
    ensures ValueAt([("value", v), ("attributes", a)], "attributes") == a
  {
    var h := [("value", v), ("attributes", a)];
    assert "attributes" != "value" by { assert "attributes"[0] != "value"[0]; }
    assert h[1..] == [("attributes", a)];
  }

  /** The value and attribute lists the unpacking loop builds from two posted hashes. */
  lemma TwoEntryFields(v1: Value, a1: Value, v2: Value, a2: Value)
    ensures var es := [Hash([("value", v1), ("attributes", a1)]), Hash([("value", v2), ("attributes", a2)])];
      EntryFields(es, "value") == [v1, v2] && EntryFields(es, "attributes") == [a1, a2]
  {
    EntryHashFields(v1, a1);
    EntryHashFields(v2, a2);
  }

  /** Two posted `{value:, attributes:}` hashes dispatch as their parallel fields. */
  lemma TwoEntriesDispatch(v1: Value, a1: Value, v2: Value, a2: Value)
    ensures Dispatch(Arr([Hash([("value", v1), ("attributes", a1)]), Hash([("value", v2), ("attributes", a2)])]))
      == Some(Args([v1, v2], [a1, a2]))
  {
    var es := [Hash([("value", v1), ("attributes", a1)]), Hash([("value", v2), ("attributes", a2)])];
    assert KeepIf(Arr(es)) == Arr(es) by {
      KeepNonBlankOfPresent(es);
    }
    TwoEntryFields(v1, a1, v2, a2);
  }

  /**
   * The same shift through a whole update: a form posting an empty note with
   * attribute hash `a1` and then the note "text" with `a2` completes, and
   * stores "text" with `a1`.
   */
  lemma UpdateMisalignsNotes(voc: Vocabulary, doc: Document, a1: Value, a2: Value)
    requires PerValue(ChooseStrategy(voc, "note"))
    requires Truthy(a1)
    ensures var e1 := Hash([("value", Str("")), ("attributes", a1)]);
      var e2 := Hash([("value", Str("text")), ("attributes", a2)]);
      var out := Update(voc, doc, [("note", Arr([e1, e2]))]);
      out.completed && Find(out.state.doc, "note") == [Node(Str("text"), a1)]
  {
    var e1 := Hash([("value", Str("")), ("attributes", a1)]);
    var e2 := Hash([("value", Str("text")), ("attributes", a2)]);
    var ps := [("note", Arr([e1, e2]))];
    var vals := [Str(""), Str("text")];
    var w := [Node(Str("text"), a1)];
    var st0 := State(doc, []);
    var st1 := State(doc["note" := w], []);
    assert PrepareIdentifiers(ps) == Some(ps) by {
      assert "note" != "identifier" by { assert "note"[0] != "identifier"[0]; }
      assert ps[1..] == [];
      assert ValueAt(ps, "identifier") == Nil;
      NoIdentifiersNoChange(ps);
    }
    assert ApplyAttribute(voc, st0, "note", vals, [a1, a2]) == st1 by {
      assert FindMetadataAttribute(voc, "note") == Some("note");
      EmptyThenText();
      assert Written(ChooseStrategy(voc, "note"), vals, [a1, a2]) == w;
    }
    assert ApplyAll(voc, st0, ps) == Outcome(st1, true) by {
      TwoEntriesDispatch(Str(""), a1, Str("text"), a2);
      assert ps[1..] == [];
      assert ApplyAll(voc, st0, ps) == ApplyAll(voc, st1, []);
    }
  }

  /** Filtering `["", "text"]` keeps only "text". */
  lemma EmptyThenText()
    ensures KeepNonBlank([Str(""), Str("text")]) == [Str("text")]
  {
    var vals := [Str(""), Str("text")];
    assert !Blank(Str("text")) by { assert !IsSpace("text"[0]); }
    assert vals[..1] == [Str("")];
    assert KeepNonBlank(vals[..1]) == [];
  }

  /** An attribute the schema cannot resolve is reported and leaves the document alone. */
  lemma ApplyUnmapped(voc: Vocabulary, st: State, attribute: string, vals: seq<Value>, attrs: seq<Value>)
    requires FindMetadataAttribute(voc, attribute).None?
    ensures var st' := ApplyAttribute(voc, st, attribute, vals, attrs);
      && st'.doc == st.doc
      && Get(st'.missing, attribute) == Some("Metadata attribute '" + attribute + "' not found")
      && (forall k :: k != attribute ==> Get(st'.missing, k) == Get(st.missing, k))
  {
    PutGet(st.missing, attribute, NotFoundMessage(attribute));
  }

  /**
   * A resolved attribute replaces its term: afterwards the term holds exactly
   * the non-blank values in input order, every other term is untouched, and
   * nothing is reported.
   */
  lemma ApplyMapped(voc: Vocabulary, st: State, attribute: string, vals: seq<Value>, attrs: seq<Value>)
    requires FindMetadataAttribute(voc, attribute).Some?
    ensures var t := FindMetadataAttribute(voc, attribute).value;
      var st' := ApplyAttribute(voc, st, attribute, vals, attrs);
      && ValuesOf(Find(st'.doc, t)) == KeepNonBlank(vals)
      && (forall t' :: t' != t ==> Find(st'.doc, t') == Find(st.doc, t'))
      && st'.missing == st.missing
  {
    var t := FindMetadataAttribute(voc, attribute).value;
    WrittenValues(ChooseStrategy(voc, t), vals, attrs);
  }

  /** Applying the same attribute twice is applying it once. */
  lemma ApplyIdempotent(voc: Vocabulary, st: State, attribute: string, vals: seq<Value>, attrs: seq<Value>)
    ensures var st' := ApplyAttribute(voc, st, attribute, vals, attrs);
      ApplyAttribute(voc, st', attribute, vals, attrs) == st'
  {
    if FindMetadataAttribute(voc, attribute).None? {
      PutIdempotent(st.missing, attribute, NotFoundMessage(attribute));
    }
  }

  /** Nothing but blanks for a resolved attribute clears its term. */
  lemma ApplyBlanksClears(voc: Vocabulary, st: State, attribute: string, vals: seq<Value>, attrs: seq<Value>)
    requires FindMetadataAttribute(voc, attribute).Some?
    requires forall i :: 0 <= i < |vals| ==> Blank(vals[i])
    ensures Find(ApplyAttribute(voc, st, attribute, vals, attrs).doc, FindMetadataAttribute(voc, attribute).value) == []
  {
    KeepNonBlankOfBlanks(vals);
    ApplyMapped(voc, st, attribute, vals, attrs);
  }

  /** A run leaves the document as it was, overridden by the writes of the pairs it got through. */
  lemma UpdateThenMerge<K, V>(d: map<K, V>, t: K, w: V, r: map<K, V>)
    ensures d[t := w] + r == d + (map[t := w] + r)
  {
  }

  lemma {:induction false} ApplyAllDoc(voc: Vocabulary, st: State, ps: Params)
    ensures ApplyAll(voc, st, ps).state.doc == st.doc + Writes(voc, Processed(ps))
    decreases |ps|
  {
    if |ps| == 0 || Dispatch(ps[0].1).None? {
      assert Processed(ps) == [];
      assert st.doc + map[] == st.doc;
    } else {
      var a := Dispatch(ps[0].1).value;
      var st1 := ApplyAttribute(voc, st, ps[0].0, a.vals, a.attrs);
      ApplyAllDoc(voc, st1, ps[1..]);
      assert ApplyAll(voc, st, ps) == ApplyAll(voc, st1, ps[1..]);
      var q := [ps[0]] + Processed(ps[1..]);
      assert Processed(ps) == q;
      assert q[0] == ps[0] && q[1..] == Processed(ps[1..]);
      assert Writes(voc, q) == WriteOf(voc, ps[0]) + Writes(voc, Processed(ps[1..]));
      ApplyAttributeDoc(voc, st, ps[0], a, Writes(voc, Processed(ps[1..])));
    }
  }

  /** One applied pair changes the document exactly by its write. */
  lemma ApplyAttributeDoc(voc: Vocabulary, st: State, p: (string, Value), a: Args, rest: map<string, seq<Node>>)
    requires Dispatch(p.1) == Some(a)
    ensures ApplyAttribute(voc, st, p.0, a.vals, a.attrs).doc + rest == st.doc + (WriteOf(voc, p) + rest)
  {
    match FindMetadataAttribute(voc, p.0)
    case None =>
      assert WriteOf(voc, p) == map[];
      assert map[] + rest == rest;
    case Some(t) =>
      var w := Written(ChooseStrategy(voc, t), a.vals, a.attrs);
      assert WriteOf(voc, p) == map[t := w];
      UpdateThenMerge(st.doc, t, w, rest);
  }

  /** The report and the completion flag of a run do not depend on the document. */
  lemma {:induction false} ApplyAllIgnoresDoc(voc: Vocabulary, d1: Document, d2: Document, m: seq<(string, string)>, ps: Params)
    ensures ApplyAll(voc, State(d1, m), ps).state.missing == ApplyAll(voc, State(d2, m), ps).state.missing
    ensures ApplyAll(voc, State(d1, m), ps).completed == ApplyAll(voc, State(d2, m), ps).completed
    decreases |ps|
  {
    if |ps| > 0 && Dispatch(ps[0].1).Some? {
      var a := Dispatch(ps[0].1).value;
      var s1 := ApplyAttribute(voc, State(d1, m), ps[0].0, a.vals, a.attrs);
      var s2 := ApplyAttribute(voc, State(d2, m), ps[0].0, a.vals, a.attrs);
      ApplyAllIgnoresDoc(voc, s1.doc, s2.doc, s1.missing, ps[1..]);
    }
  }

  /** A run completes exactly when it gets through every pair without raising. */
  lemma {:induction false} ApplyAllCompletes(voc: Vocabulary, st: State, ps: Params)
    ensures ApplyAll(voc, st, ps).completed <==> Processed(ps) == ps
    decreases |ps|
  {
    if |ps| > 0 && Dispatch(ps[0].1).Some? {
      var a := Dispatch(ps[0].1).value;
      var st1 := ApplyAttribute(voc, st, ps[0].0, a.vals, a.attrs);
      assert ApplyAll(voc, st, ps) == ApplyAll(voc, st1, ps[1..]);
      ApplyAllCompletes(voc, st1, ps[1..]);
      var q := [ps[0]] + Processed(ps[1..]);
      assert Processed(ps) == q;
      if Processed(ps[1..]) == ps[1..] {
        assert q == ps;
      } else {
        assert q[1..] != ps[1..];
      }
    }
  }

  /** One pair that does not raise adds its own line (if unresolved) in front of the rest of the report. */
  lemma ReportStep(voc: Vocabulary, ps: Params)
    requires |ps| > 0 && Dispatch(ps[0].1).Some?
    ensures UnmappedReport(voc, Processed(ps))
      == (if FindMetadataAttribute(voc, ps[0].0).None? then [(ps[0].0, NotFoundMessage(ps[0].0))] else [])
        + UnmappedReport(voc, Processed(ps[1..]))
  {
    var q := [ps[0]] + Processed(ps[1..]);
    assert Processed(ps) == q;
    assert q[0] == ps[0] && q[1..] == Processed(ps[1..]);
  }

  /**
   * Over a hash (distinct keys) the run reports exactly the unresolved keys it
   * got through, in order, after what was already reported.
   */
  lemma {:induction false} ApplyAllMissing(voc: Vocabulary, st: State, ps: Params)
    requires DistinctKeys(ps)
    requires forall i :: 0 <= i < |ps| ==> ps[i].0 !in Keys(st.missing)
    ensures ApplyAll(voc, st, ps).state.missing == st.missing + UnmappedReport(voc, Processed(ps))
    decreases |ps|
  {
    if |ps| > 0 && Dispatch(ps[0].1).Some? {
      var a := Dispatch(ps[0].1).value;
      var k := ps[0].0;
      var st1 := ApplyAttribute(voc, st, k, a.vals, a.attrs);
      var line := if FindMetadataAttribute(voc, k).None? then [(k, NotFoundMessage(k))] else [];
      var later := UnmappedReport(voc, Processed(ps[1..]));
      assert st1.missing == st.missing + line by {
        MissingAfterApply(voc, st, k, a.vals, a.attrs);
      }
      assert ApplyAll(voc, st1, ps[1..]).state.missing == st1.missing + later by {
        FreshKeysStayFresh(st, st1, line, ps);
        ApplyAllMissing(voc, st1, ps[1..]);
      }
      assert UnmappedReport(voc, Processed(ps)) == line + later by {
        ReportStep(voc, ps);
      }
      assert ApplyAll(voc, st, ps).state.missing == (st.missing + line) + later by {
        assert ApplyAll(voc, st, ps) == ApplyAll(voc, st1, ps[1..]);
      }
      assert (st.missing + line) + later == st.missing + (line + later);
    } else {
      assert Processed(ps) == [] && UnmappedReport(voc, []) == [];
      assert st.missing + [] == st.missing;
    }
  }

  /** An unresolved key not yet reported is appended to the report; a resolved one adds nothing. */
  lemma MissingAfterApply(voc: Vocabulary, st: State, k: string, vals: seq<Value>, attrs: seq<Value>)
    requires k !in Keys(st.missing)
    ensures ApplyAttribute(voc, st, k, vals, attrs).missing
      == st.missing + (if FindMetadataAttribute(voc, k).None? then [(k, NotFoundMessage(k))] else [])
  {
    if FindMetadataAttribute(voc, k).None? {
      PutKeys(st.missing, k, NotFoundMessage(k));
    }
  }

  lemma FreshKeysStayFresh(st: State, st1: State, line: seq<(string, string)>, ps: Params)
    requires |ps| > 0 && DistinctKeys(ps)
    requires forall i :: 0 <= i < |ps| ==> ps[i].0 !in Keys(st.missing)
    requires line == [] || line == [(ps[0].0, NotFoundMessage(ps[0].0))]
    requires st1.missing == st.missing + line
    ensures DistinctKeys(ps[1..])
    ensures forall i :: 0 <= i < |ps[1..]| ==> ps[1..][i].0 !in Keys(st1.missing)
  {
    KeysConcat(st.missing, line);
    assert Keys(line) == [] || Keys(line) == [ps[0].0];
    forall i | 0 <= i < |ps[1..]| ensures ps[1..][i].0 !in Keys(st1.missing) {
      assert ps[1..][i] == ps[i + 1];
      assert ps[i + 1].0 != ps[0].0;
    }
  }

  /** Every reported key is a key of the run that failed to resolve. */
  lemma {:induction false} ApplyAllMissingKeys(voc: Vocabulary, st: State, ps: Params)
    ensures forall k :: k in Keys(ApplyAll(voc, st, ps).state.missing) ==>
      k in Keys(st.missing) || (k in Keys(ps) && FindMetadataAttribute(voc, k).None?)
    decreases |ps|
  {
    if |ps| > 0 && Dispatch(ps[0].1).Some? {
      var a := Dispatch(ps[0].1).value;
      var st1 := ApplyAttribute(voc, st, ps[0].0, a.vals, a.attrs);
      ApplyAllMissingKeys(voc, st1, ps[1..]);
      if FindMetadataAttribute(voc, ps[0].0).None? {
        PutKeys(st.missing, ps[0].0, NotFoundMessage(ps[0].0));
      }
      assert Keys(ps) == [ps[0].0] + Keys(ps[1..]);
    }
  }

  /** A term no key resolves to is never written. */
  lemma {:induction false} WritesUntouched(voc: Vocabulary, ps: Params, t: string)
    requires forall i :: 0 <= i < |ps| ==> FindMetadataAttribute(voc, ps[i].0) != Some(t)
    ensures t !in Writes(voc, ps)
  {
    if |ps| > 0 {
      WritesUntouched(voc, ps[1..], t);
    }
  }

  /** The last key that resolves to a term decides what the term holds. */
  lemma {:induction false} WritesLast(voc: Vocabulary, ps: Params, t: string, j: nat)
    requires forall i :: 0 <= i < |ps| ==> Dispatch(ps[i].1).Some?
    requires j < |ps| && FindMetadataAttribute(voc, ps[j].0) == Some(t)
    requires forall i :: j < i < |ps| ==> FindMetadataAttribute(voc, ps[i].0) != Some(t)
    ensures var a := Dispatch(ps[j].1).value;
      t in Writes(voc, ps) && Writes(voc, ps)[t] == Written(ChooseStrategy(voc, t), a.vals, a.attrs)
  {
    if j == 0 {
      WritesUntouched(voc, ps[1..], t);
    } else {
      WritesLast(voc, ps[1..], t, j - 1);
    }
  }

  /** After a run that did not raise, each term is held by the last pair resolving to it. */
  lemma ApplyAllLastWriter(voc: Vocabulary, st: State, ps: Params, t: string, j: nat)
    requires ApplyAll(voc, st, ps).completed
    requires j < |ps| && FindMetadataAttribute(voc, ps[j].0) == Some(t)
    requires forall i :: j < i < |ps| ==> FindMetadataAttribute(voc, ps[i].0) != Some(t)
    ensures Dispatch(ps[j].1).Some?
    ensures Find(ApplyAll(voc, st, ps).state.doc, t)
      == Written(ChooseStrategy(voc, t), Dispatch(ps[j].1).value.vals, Dispatch(ps[j].1).value.attrs)
  {
    ApplyAllDoc(voc, st, ps);
    ApplyAllCompletes(voc, st, ps);
    ProcessedDispatches(ps);
    WritesLast(voc, ps, t, j);
  }

  /** A term no pair resolves to keeps its nodes, even when the run raised part-way. */
  lemma ApplyAllUntouched(voc: Vocabulary, st: State, ps: Params, t: string)
    requires forall i :: 0 <= i < |ps| ==> FindMetadataAttribute(voc, ps[i].0) != Some(t)
    ensures Find(ApplyAll(voc, st, ps).state.doc, t) == Find(st.doc, t)
  {
    ApplyAllDoc(voc, st, ps);
    var p := Processed(ps);
    forall i | 0 <= i < |p| ensures FindMetadataAttribute(voc, p[i].0) != Some(t) {
      assert p[i] == ps[i];
    }
    WritesUntouched(voc, p, t);
  }

  /**
   * Partial application: after an update that did not raise, a term is held
   * by the last attribute resolving to it, whatever other attributes failed
   * to resolve; a term no attribute resolves to is untouched.
   */
  lemma UpdateWritesMappedAttributes(voc: Vocabulary, doc: Document, values: Params, t: string, j: nat)
    requires Update(voc, doc, values).completed
    ensures PrepareIdentifiers(values).Some?
    ensures var ps := PrepareIdentifiers(values).value;
      j < |ps| && FindMetadataAttribute(voc, ps[j].0) == Some(t)
      && (forall i :: j < i < |ps| ==> FindMetadataAttribute(voc, ps[i].0) != Some(t))
      ==> Dispatch(ps[j].1).Some?
          && Find(Update(voc, doc, values).state.doc, t)
             == Written(ChooseStrategy(voc, t), Dispatch(ps[j].1).value.vals, Dispatch(ps[j].1).value.attrs)
    ensures var ps := PrepareIdentifiers(values).value;
      (forall i :: 0 <= i < |ps| ==> FindMetadataAttribute(voc, ps[i].0) != Some(t))
      ==> Find(Update(voc, doc, values).state.doc, t) == Find(doc, t)
  {
    var ps := PrepareIdentifiers(values).value;
    if j < |ps| && FindMetadataAttribute(voc, ps[j].0) == Some(t)
      && (forall i :: j < i < |ps| ==> FindMetadataAttribute(voc, ps[i].0) != Some(t)) {
      ApplyAllLastWriter(voc, State(doc, []), ps, t, j);
    }
    if forall i :: 0 <= i < |ps| ==> FindMetadataAttribute(voc, ps[i].0) != Some(t) {
      ApplyAllUntouched(voc, State(doc, []), ps, t);
    }
  }

  /**
   * The report of an update is built afresh: it lists exactly the unresolved
   * attributes of this call that were reached, in posting order, and nothing
   * from any earlier call. When the identifier special case raises, the report
   * is empty and the document untouched.
   */
  lemma UpdateReport(voc: Vocabulary, doc: Document, values: Params)
    requires DistinctKeys(values)
    ensures PrepareIdentifiers(values).None? ==> Update(voc, doc, values) == Outcome(State(doc, []), false)
    ensures PrepareIdentifiers(values).Some? ==>
      Update(voc, doc, values).state.missing == UnmappedReport(voc, Processed(PrepareIdentifiers(values).value))
  {
    if PrepareIdentifiers(values).Some? {
      PrepareIdentifiersKeys(values);
      ApplyAllMissing(voc, State(doc, []), PrepareIdentifiers(values).value);
    }
  }

  /** No stale failures: whatever an update reports is an unresolved attribute posted to it. */
  lemma UpdateReportsOnlyItsOwnKeys(voc: Vocabulary, doc: Document, values: Params)
    ensures forall k :: k in Keys(Update(voc, doc, values).state.missing) ==>
      k in Keys(values) && FindMetadataAttribute(voc, k).None?
  {
    if PrepareIdentifiers(values).Some? {
      PrepareIdentifiersKeys(values);
      ApplyAllMissingKeys(voc, State(doc, []), PrepareIdentifiers(values).value);
    }
  }

  /** A second run of the same pairs over the result of the first changes nothing. */
  lemma ApplyAllIdempotent(voc: Vocabulary, doc: Document, ps: Params)
    ensures var once := ApplyAll(voc, State(doc, []), ps);
      ApplyAll(voc, State(once.state.doc, []), ps) == once
  {
    var once := ApplyAll(voc, State(doc, []), ps);
    var twice := ApplyAll(voc, State(once.state.doc, []), ps);
    var w := Writes(voc, Processed(ps));
    ApplyAllDoc(voc, State(doc, []), ps);
    ApplyAllDoc(voc, State(once.state.doc, []), ps);
    ApplyAllIgnoresDoc(voc, doc, once.state.doc, [], ps);
    assert (doc + w) + w == doc + w;
    assert twice.state.doc == once.state.doc;
    assert twice.state == once.state;
  }

  /** Running the same update twice leaves the same document, report and outcome as running it once. */
  lemma UpdateIdempotent(voc: Vocabulary, doc: Document, values: Params)
    ensures Update(voc, Update(voc, doc, values).state.doc, values) == Update(voc, doc, values)
  {
    if PrepareIdentifiers(values).Some? {
      ApplyAllIdempotent(voc, doc, PrepareIdentifiers(values).value);
    }
  }

  /** A form posting `{title: "X", bogus_field: "Y"}`: the unresolvable key does not stop the title from being written. */
  lemma PartialApplicationExample(voc: Vocabulary, doc: Document)
    requires "bogus_field" !in voc.terms
    ensures var o := Update(voc, doc, [("title", Str("X")), ("bogus_field", Str("Y"))]);
      && o.completed
      && o.state.doc == doc["main_title" := [Node(Str("X"), Hash([]))]]
      && o.state.missing == [("bogus_field", "Metadata attribute 'bogus_field' not found")]
  {
    var values: Params := [("title", Str("X")), ("bogus_field", Str("Y"))];
    assert PrepareIdentifiers(values) == Some(values) by {
      assert ValueAt(values, "identifier") == Nil;
    }
    var st0 := State(doc, []);
    var st1 := State(doc["main_title" := [Node(Str("X"), Hash([]))]], []);
    var st2 := State(st1.doc, [("bogus_field", "Metadata attribute 'bogus_field' not found")]);
    TitleStep(voc, st0);
    BogusStep(voc, st1);
    assert values[1..] == [("bogus_field", Str("Y"))] && values[1..][1..] == [];
    assert ApplyAll(voc, st0, values) == ApplyAll(voc, st1, values[1..]);
    assert ApplyAll(voc, st1, values[1..]) == ApplyAll(voc, st2, []);
  }

  lemma StrDispatch(c: char)
    requires !IsSpace(c)
    ensures Dispatch(Str([c])) == Some(Args([Str([c])], []))
    ensures KeepNonBlank([Str([c])]) == [Str([c])]
  {
    assert !Blank(Str([c])) by { assert [c][0] == c; }
    assert [Str([c])][..0] == [];
  }

  /** A single present value with no attributes is stored the same way by every strategy. */
  lemma SingleValueWritten(s: Strategy, x: Value)
    requires !Blank(x)
    ensures Written(s, [x], []) == [Node(x, Hash([]))]
  {
    var xs := [x];
    assert xs[..0] == [];
    assert KeepNonBlank(xs) == KeepNonBlank([]) + [x];
    if PerValue(s) {
      assert AsWrittenEntries(xs, []) == [Node(x, AttrsAt([], 0))];
    } else {
      assert BulkEntries(xs) == [Node(x, Hash([]))];
    }
  }

  lemma TitleStep(voc: Vocabulary, st0: State)
    ensures Dispatch(Str("X")) == Some(Args([Str("X")], []))
    ensures ApplyAttribute(voc, st0, "title", [Str("X")], [])
      == State(st0.doc["main_title" := [Node(Str("X"), Hash([]))]], st0.missing)
  {
    StrDispatch('X');
    assert FindMetadataAttribute(voc, "title") == Some("main_title");
    SingleValueWritten(ChooseStrategy(voc, "main_title"), Str("X"));
  }

  lemma BogusStep(voc: Vocabulary, st1: State)
    requires "bogus_field" !in voc.terms && st1.missing == []
    ensures Dispatch(Str("Y")) == Some(Args([Str("Y")], []))
    ensures ApplyAttribute(voc, st1, "bogus_field", [Str("Y")], [])
      == State(st1.doc, [("bogus_field", "Metadata attribute 'bogus_field' not found")])
  {
    StrDispatch('Y');
    assert FindMetadataAttribute(voc, "bogus_field").None?;
    assert Put(st1.missing, "bogus_field", NotFoundMessage("bogus_field")) == [("bogus_field", NotFoundMessage("bogus_field"))];
    assert NotFoundMessage("bogus_field") == "Metadata attribute 'bogus_field' not found";
  }

  /** Posting an empty list for a resolvable attribute clears its term. */
  lemma EmptyListClears(voc: Vocabulary, doc: Document, attribute: string)
    requires FindMetadataAttribute(voc, attribute).Some?
    ensures var o := Update(voc, doc, [(attribute, Arr([]))]);
      o.completed && Find(o.state.doc, FindMetadataAttribute(voc, attribute).value) == []
  {
    var values: Params := [(attribute, Arr([]))];
    var t := FindMetadataAttribute(voc, attribute).value;
    assert ValueAt(values, "identifier_type") == Nil || attribute == "identifier_type";
    if attribute == "identifier" {
      assert ValueAt(values, "identifier") == Arr([]);
      assert ValueAt(values, "identifier_type") == Nil;
      assert PairWithDefaultType([]) == [];
      assert Put(values, "identifier", Arr([])) == values;
    } else {
      assert ValueAt(values, "identifier") == Nil;
    }
    assert PrepareIdentifiers(values) == Some(values);
    assert Dispatch(Arr([])) == Some(Args([], []));
    var st1 := ApplyAttribute(voc, State(doc, []), attribute, [], []);
    assert values[1..] == [];
    assert ApplyAll(voc, State(doc, []), values) == ApplyAll(voc, st1, []) == Outcome(st1, true);
    ApplyBlanksClears(voc, State(doc, []), attribute, [], []);
  }

  /** After writing a creator attribute, the creator is present exactly when a non-blank value was sent. */
  lemma CreatorPresentAfterWrite(voc: Vocabulary, st: State, attribute: string, vals: seq<Value>, attrs: seq<Value>)
    requires FindMetadataAttribute(voc, attribute) == Some("creator")
    ensures HasCreator(ApplyAttribute(voc, st, attribute, vals, attrs).doc)
      <==> exists i :: 0 <= i < |vals| && !Blank(vals[i])
  {
    var doc := ApplyAttribute(voc, st, attribute, vals, attrs).doc;
    ApplyMapped(voc, st, attribute, vals, attrs);
    var ns := Find(doc, "creator");
    assert ValuesOf(ns) == KeepNonBlank(vals);
    assert HasCreator(doc) <==> |ns| > 0 by {
      if |ns| > 0 {
        assert ns[0].value == KeepNonBlank(vals)[0];
      }
    }
    KeepNonBlankEmpty(vals);
  }

  /** Identifier nodes that all carry a type come back as (type, value) pairs, one per node, in order. */
  lemma {:induction false} TypesOfTyped(ns: seq<Node>)
    requires forall i :: 0 <= i < |ns| ==> ns[i].attributes.Hash? && "type" in Keys(ns[i].attributes.pairs)
    ensures TypesOf(ns) == seq(|ns|, i requires 0 <= i < |ns| => ValueAt(ns[i].attributes.pairs, "type"))
  {
    if |ns| > 0 {
      var init := ns[..|ns| - 1];
      var last := ns[|ns| - 1];
      assert forall i :: 0 <= i < |init| ==> init[i] == ns[i];
      TypesOfTyped(init);
      assert last.attributes.Hash? && "type" in Keys(last.attributes.pairs);
      var want := seq(|ns|, i requires 0 <= i < |ns| => ValueAt(ns[i].attributes.pairs, "type"));
      assert want == want[..|init|] + [ValueAt(last.attributes.pairs, "type")];
      assert want[..|init|] == TypesOf(init);
    }
  }

  lemma IdentifierGetterPairs(doc: Document)
    requires var ns := Find(doc, "identifier");
      forall i :: 0 <= i < |ns| ==> ns[i].attributes.Hash? && "type" in Keys(ns[i].attributes.pairs)
    ensures var ns := Find(doc, "identifier");
      && |IdentifierPairs(doc)| == |ns|
      && forall i :: 0 <= i < |ns| ==>
           IdentifierPairs(doc)[i] == Arr([ValueAt(ns[i].attributes.pairs, "type"), ns[i].value])
  {
    TypesOfTyped(Find(doc, "identifier"));
  }

  /** Zipping before filtering: an identifier left blank still becomes a stored ['Other', ''] pair. */
  lemma BlankIdentifierIsKept(voc: Vocabulary, doc: Document)
    ensures var o := Update(voc, doc, [("identifier", Arr([Str("")]))]);
      o.completed && ValuesOf(Find(o.state.doc, "identifier")) == [Arr([Str("Other"), Str("")])]
  {
    var values: Params := [("identifier", Arr([Str("")]))];
    var pair := Arr([Str("Other"), Str("")]);
    assert PairWithDefaultType([Str("")]) == [pair];
    assert ValueAt(values, "identifier") == Arr([Str("")]);
    assert ValueAt(values, "identifier_type") == Nil;
    assert Put(values, "identifier", Arr([pair])) == [("identifier", Arr([pair]))];
    assert PrepareIdentifiers(values) == Some([("identifier", Arr([pair]))]);
    assert !Blank(pair);
    assert KeepNonBlank([pair]) == [pair];
    assert Dispatch(Arr([pair])) == Some(Args([pair], []));
    ApplyMapped(voc, State(doc, []), "identifier", [pair], []);
  }
}
