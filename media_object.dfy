/**
 * The media object: its descriptive metadata document, its missing-attribute
 * store, its validation errors, its ordered section pids and its publisher,
 * and the methods of the source that change them.
 */
module MediaObjects {
  import opened Wrappers
  import opened RubyValues
  import opened OrderedHash
  import opened AttributeSchema
  import opened Normalize
  import opened Metadata

  /** The message `errors.messages.blank` resolves to. */
  const BlankMessage := "can't be blank"

  /** `parts_with_order.reject { |mf| mf.pid == pid }`, seen through the parts' pids. */
  function RemovePid(pids: seq<string>, pid: string): (r: seq<string>)
    ensures pid !in r
    ensures forall p :: p != pid ==> multiset(r)[p] == multiset(pids)[p]
    ensures |r| == |pids| - multiset(pids)[pid]
  {
    if |pids| == 0 then []
    else
      assert pids == pids[..|pids| - 1] + [pids[|pids| - 1]];
      RemovePid(pids[..|pids| - 1], pid) + (if pids[|pids| - 1] == pid then [] else [pids[|pids| - 1]])
  }

  /** The survivors keep their relative order: removal commutes with concatenation. */
  lemma {:induction false} RemovePidConcat(a: seq<string>, b: seq<string>, pid: string)
    ensures RemovePid(a + b, pid) == RemovePid(a, pid) + RemovePid(b, pid)
    decreases |b|
  {
    if |b| == 0 {
      assert a + b == a;
    } else {
      var b' := b[..|b| - 1];
      assert (a + b)[..|a + b| - 1] == a + b';
      assert (a + b)[|a + b| - 1] == b[|b| - 1];
      RemovePidConcat(a, b', pid);
    }
  }

  /** Removing a part twice is removing it once. */
  lemma {:induction false} RemovePidIdempotent(pids: seq<string>, pid: string)
    ensures RemovePid(RemovePid(pids, pid), pid) == RemovePid(pids, pid)
  {
    if |pids| > 0 {
      var init := pids[..|pids| - 1];
      var last := pids[|pids| - 1];
      RemovePidIdempotent(init, pid);
      RemovePidConcat(RemovePid(init, pid), if last == pid then [] else [last], pid);
      assert RemovePid([], pid) == [];
      if last != pid {
        assert [last][..0] == [];
        assert RemovePid([last], pid) == [last];
      }
    }
  }

  class MediaObject {
    /** What the descriptive metadata document's class offers. */
    const vocabulary: Vocabulary
    /** descMetadata */
    var desc: Document
    /** `@missing_attributes` */
    var missing: seq<(string, string)>
    /** `errors`, in the order they were added */
    var errors: seq<(string, string)>
    /** sectionsMetadata's `section_pid` terms */
    var sectionPids: seq<string>
    /** DC's `avalon_publisher` */
    var avalonPublisher: Value

    constructor (vocabulary: Vocabulary)
      ensures this.vocabulary == vocabulary
      ensures desc == map[] && missing == [] && errors == [] && sectionPids == [] && avalonPublisher == Nil
    {
      this.vocabulary := vocabulary;
      desc := map[];
      missing := [];
      errors := [];
      sectionPids := [];
      avalonPublisher := Nil;
    }

    /** `published?` */
    predicate IsPublished()
      reads this
    {
      !Blank(avalonPublisher)
    }

    /** `publish!(user_key)`: a blank key unpublishes. Saving is not part of the model. */
    method Publish(userKey: Value)
      modifies this`avalonPublisher
      ensures avalonPublisher == (if Blank(userKey) then Nil else userKey)
      ensures IsPublished() <==> !Blank(userKey)
    {
      avalonPublisher := if Blank(userKey) then Nil else userKey;
    }

    /** `validate_creator`: one blank-creator error exactly when no creator value is present. */
    method ValidateCreator()
      modifies this`errors
      ensures errors == old(errors) + (if HasCreator(desc) then [] else [("creator", BlankMessage)])
    {
      var creators := ValuesOf(Find(desc, "creator"));
      var i := 0;
      var present := false;
      while i < |creators| && !present
        invariant 0 <= i <= |creators|
        invariant present <==> exists j :: 0 <= j < i && !Blank(creators[j])
      {
        present := !Blank(creators[i]);
        i := i + 1;
      }
      assert present <==> HasCreator(desc) by {
        if HasCreator(desc) {
          var j :| 0 <= j < |Find(desc, "creator")| && !Blank(Find(desc, "creator")[j].value);
          assert j < i || !Blank(creators[j]);
        }
      }
      if !present {
        errors := errors + [("creator", BlankMessage)];
      }
    }

    /** `report_missing_attributes`: one error per missing attribute, in the store's order. */
    method ReportMissingAttributes()
      modifies this`errors
      ensures errors == old(errors) + missing
    {
      var i := 0;
      while i < |missing|
        invariant 0 <= i <= |missing|
        invariant errors == old(errors) + missing[..i]
      {
        assert missing[..i + 1] == missing[..i] + [missing[i]];
        errors := errors + [missing[i]];
        i := i + 1;
      }
      assert missing[..i] == missing;
    }

    /**
     * `update_attribute_in_metadata`: an unresolved attribute goes into the
     * missing store; otherwise every node at the term is removed and the
     * non-blank values are inserted by the first strategy that applies.
     */
    method UpdateAttributeInMetadata(attribute: string, value: seq<Value>, attributes: seq<Value>) returns (applied: bool)
      modifies this`desc, this`missing
      ensures State(desc, missing) == ApplyAttribute(vocabulary, State(old(desc), old(missing)), attribute, value, attributes)
      ensures applied <==> FindMetadataAttribute(vocabulary, attribute).Some?
    {
      var term := FindMetadataAttribute(vocabulary, attribute);
      if term.None? {
        missing := Put(missing, attribute, NotFoundMessage(attribute));
        return false;
      }
      var t := term.value;
      var values := KeepNonBlank(value);
      desc := desc[t := []];
      var strategy := ChooseStrategy(vocabulary, t);
      if PerValue(strategy) {
        InsertEachValue(t, values, attributes);
        assert [] + EachWithIndex(values, attributes) == AsWrittenEntries(value, attributes);
      } else {
        desc := desc[t := seq(|values|, i requires 0 <= i < |values| => Node(values[i], Hash([])))];
      }
      assert desc == old(desc)[t := Written(strategy, value, attributes)];
      applied := true;
    }

    /**
     * The insertion loop of the node-template and adder strategies: each of
     * the (already filtered) values is appended at the term with the attribute
     * hash at its own position in `attributes`.
     */
    method InsertEachValue(t: string, values: seq<Value>, attributes: seq<Value>)
      modifies this`desc
      ensures desc == old(desc)[t := Find(old(desc), t) + EachWithIndex(values, attributes)]
    {
      var base := Find(desc, t);
      desc := desc[t := base];
      var i := 0;
      while i < |values|
        invariant 0 <= i <= |values|
        invariant t in desc && desc[t] == base + EachWithIndex(values[..i], attributes)
        invariant forall k :: k in desc <==> k in old(desc) || k == t
        invariant forall k :: k in old(desc) && k != t ==> desc[k] == old(desc)[k]
      {
        assert EachWithIndex(values[..i + 1], attributes)
          == EachWithIndex(values[..i], attributes) + [Node(values[i], AttrsAt(attributes, i))];
        desc := desc[t := desc[t] + [Node(values[i], AttrsAt(attributes, i))]];
        i := i + 1;
      }
      assert values[..i] == values;
      assert desc == old(desc)[t := base + EachWithIndex(values, attributes)];
    }

    /**
     * One pass of the `values.each` loop in `update_datastream`: blank items go,
     * hash entries are unpacked, anything else is wrapped with `Array(...)`,
     * and the result is written. `ok` is false where Ruby raises, and then
     * nothing has changed.
     */
    method ApplyPair(k: string, v: Value) returns (ok: bool)
      modifies this`desc, this`missing
      ensures ok <==> Dispatch(v).Some?
      ensures ok ==>
        State(desc, missing) == ApplyAttribute(vocabulary, State(old(desc), old(missing)), k, Dispatch(v).value.vals, Dispatch(v).value.attrs)
      ensures !ok ==> desc == old(desc) && missing == old(missing)
    {
      var raw := KeepIf(v);
      if raw.Nil? {
        return false;
      }
      if FirstIsHash(raw) {
        var vals, attrs;
        ok, vals, attrs := Unpack(raw.elems);
        if !ok {
          return false;
        }
        var _ := UpdateAttributeInMetadata(k, vals, attrs);
      } else {
        var _ := UpdateAttributeInMetadata(k, RubyArray(raw).elems, []);
        ok := true;
      }
    }

    /**
     * `update_datastream(:descMetadata, values)`. `completed` is false where
     * Ruby raises; the attributes before that point stay applied.
     */
    method UpdateDatastream(values: Params) returns (completed: bool)
      modifies this`desc, this`missing
      ensures State(desc, missing) == Update(vocabulary, old(desc), values).state
      ensures completed == Update(vocabulary, old(desc), values).completed
    {
      missing := [];
      var prepared := PrepareIdentifiers(values);
      if prepared.None? {
        return false;
      }
      var ps := prepared.value;
      ghost var goal := ApplyAll(vocabulary, State(old(desc), []), ps);
      var i := 0;
      while i < |ps|
        invariant 0 <= i <= |ps|
        invariant ApplyAll(vocabulary, State(desc, missing), ps[i..]) == goal
      {
        assert ps[i..][0] == ps[i] && ps[i..][1..] == ps[i + 1..];
        var ok := ApplyPair(ps[i].0, ps[i].1);
        if !ok {
          return false;
        }
        i := i + 1;
      }
      completed := true;
    }

    /** `section_pid=`: the stored pids are replaced, not appended to. */
    method SetSectionPid(pids: seq<string>)
      modifies this`sectionPids
      ensures sectionPids == pids
    {
      sectionPids := [];
      sectionPids := pids;
    }

    /** `parts_with_order_remove(part)`: drop every part with that pid, keeping the others in order. */
    method PartsWithOrderRemove(pid: string)
      modifies this`sectionPids
      ensures sectionPids == RemovePid(old(sectionPids), pid)
    {
      SetSectionPid(RemovePid(sectionPids, pid));
    }
  }
}
