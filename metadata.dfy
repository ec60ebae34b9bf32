/**
 * The descriptive metadata document, seen as a map from term to the ordered
 * nodes found at that term, and the specification of the mapping engine:
 * `update_attribute_in_metadata` for one attribute (ApplyAttribute) and
 * `update_datastream` for a whole form (Update).
 */
module Metadata {
  import opened Wrappers
  import opened RubyValues
  import opened OrderedHash
  import opened AttributeSchema
  import opened Normalize

  /** One node of the document: its text value and its attribute hash. */
  datatype Node = Node(value: Value, attributes: Value)

  type Document = map<string, seq<Node>>

  /** `find_by_terms(term)`: the nodes at a term, none when it was never written. */
  function Find(doc: Document, term: string): seq<Node> {
    if term in doc then doc[term] else []
  }

  /** The values of some nodes, in document order. */
  function ValuesOf(ns: seq<Node>): (r: seq<Value>)
    ensures |r| == |ns|
    ensures forall i :: 0 <= i < |ns| ==> r[i] == ns[i].value
  {
    if |ns| == 0 then [] else ValuesOf(ns[..|ns| - 1]) + [ns[|ns| - 1].value]
  }

  /**
   * The evidently intended pairing of lines 268-278: one node per non-blank
   * value, in order, each carrying the attribute hash posted with that same
   * value (`attributes[i] || {}` for its own index i in the unfiltered list).
   * The engine below runs the code as written (`AsWrittenEntries`).
   */
  function AlignedEntries(vals: seq<Value>, attrs: seq<Value>): seq<Node> {
    if |vals| == 0 then []
    else
      var last := vals[|vals| - 1];
      AlignedEntries(vals[..|vals| - 1], attrs)
        + (if Blank(last) then [] else [Node(last, AttrsAt(attrs, |vals| - 1))])
  }

  /**
   * `values.each_with_index { |val, i| ... (attributes[i] || {}) }`: the i-th
   * value is inserted with the i-th attribute hash.
   */
  function EachWithIndex(values: seq<Value>, attrs: seq<Value>): (r: seq<Node>)
    ensures |r| == |values|
    ensures forall i :: 0 <= i < |r| ==> r[i].value == values[i] && r[i].attributes == AttrsAt(attrs, i)
  {
    seq(|values|, i requires 0 <= i < |values| => Node(values[i], AttrsAt(attrs, i)))
  }

  /**
   * The nodes a per-value strategy inserts, as lines 268-278 are written: the
   * blank values are dropped first and the i-th survivor is paired with
   * `attributes[i]`, the i-th attribute hash of the unfiltered list.
   */
  function AsWrittenEntries(vals: seq<Value>, attrs: seq<Value>): (r: seq<Node>)
    ensures |r| == |KeepNonBlank(vals)|
    ensures forall i :: 0 <= i < |r| ==> r[i] == Node(KeepNonBlank(vals)[i], AttrsAt(attrs, i))
  {
    EachWithIndex(KeepNonBlank(vals), attrs)
  }

  /** The nodes a bulk setter leaves: the non-blank values, with no attributes. */
  function BulkEntries(vals: seq<Value>): seq<Node> {
    var kept := KeepNonBlank(vals);
    seq(|kept|, i requires 0 <= i < |kept| => Node(kept[i], Hash([])))
  }

  /** What a term holds after its nodes were removed and the values re-inserted. */
  function Written(s: Strategy, vals: seq<Value>, attrs: seq<Value>): seq<Node> {
    if PerValue(s) then AsWrittenEntries(vals, attrs) else BulkEntries(vals)
  }

  /** The engine's state: the document and the `missing_attributes` hash. */
  datatype State = State(doc: Document, missing: seq<(string, string)>)

  function NotFoundMessage(attribute: string): string {
    "Metadata attribute '" + attribute + "' not found"
  }

  /**
   * `update_attribute_in_metadata(attribute, vals, attrs)`: an unresolved
   * attribute is recorded as missing; a resolved one has the nodes at its term
   * replaced by the re-inserted values.
   */
  function ApplyAttribute(voc: Vocabulary, st: State, attribute: string, vals: seq<Value>, attrs: seq<Value>): State {
    match FindMetadataAttribute(voc, attribute)
    case None => State(st.doc, Put(st.missing, attribute, NotFoundMessage(attribute)))
    case Some(t) => State(st.doc[t := Written(ChooseStrategy(voc, t), vals, attrs)], st.missing)
  }

  /** The result of an update: the state reached, and whether no exception cut it short. */
  datatype Outcome = Outcome(state: State, completed: bool)

  /** The `values.each` loop: each pair in order, stopping where Ruby would raise. */
  function ApplyAll(voc: Vocabulary, st: State, ps: Params): Outcome
    decreases |ps|
  {
    if |ps| == 0 then Outcome(st, true)
    else
      match Dispatch(ps[0].1)
      case None => Outcome(st, false)
      case Some(a) => ApplyAll(voc, ApplyAttribute(voc, st, ps[0].0, a.vals, a.attrs), ps[1..])
  }

  /**
   * `update_datastream(:descMetadata, values)`: the missing attributes start
   * empty, the identifier special case runs, then every pair is applied.
   */
  function Update(voc: Vocabulary, doc: Document, values: Params): Outcome {
    var st0 := State(doc, []);
    match PrepareIdentifiers(values)
    case None => Outcome(st0, false)
    case Some(ps) => ApplyAll(voc, st0, ps)
  }

  /** The pairs the loop gets through before the first one that raises. */
  function Processed(ps: Params): (r: Params)
    ensures |r| <= |ps| && r == ps[..|r|]
  {
    if |ps| == 0 || Dispatch(ps[0].1).None? then [] else [ps[0]] + Processed(ps[1..])
  }

  /** The pairs got through are the ones that dispatch, up to the first that raises. */
  lemma {:induction false} ProcessedDispatches(ps: Params)
    ensures forall i :: 0 <= i < |Processed(ps)| ==> Dispatch(ps[i].1).Some?
    ensures |Processed(ps)| < |ps| ==> Dispatch(ps[|Processed(ps)|].1).None?
  {
    if |ps| > 0 && Dispatch(ps[0].1).Some? {
      ProcessedDispatches(ps[1..]);
    }
  }

  /** The missing-attribute report a run over `ps` should produce: one line per unresolved key. */
  function UnmappedReport(voc: Vocabulary, ps: Params): seq<(string, string)> {
    if |ps| == 0 then []
    else
      (if FindMetadataAttribute(voc, ps[0].0).None? then [(ps[0].0, NotFoundMessage(ps[0].0))] else [])
        + UnmappedReport(voc, ps[1..])
  }

  /** The write one pair makes: its term and the nodes it leaves there, if it resolves. */
  function WriteOf(voc: Vocabulary, p: (string, Value)): map<string, seq<Node>> {
    match (FindMetadataAttribute(voc, p.0), Dispatch(p.1))
    case (Some(t), Some(a)) => map[t := Written(ChooseStrategy(voc, t), a.vals, a.attrs)]
    case _ => map[]
  }

  /** The term-by-term writes of a run over `ps`; a later write to a term overrides an earlier one. */
  function Writes(voc: Vocabulary, ps: Params): map<string, seq<Node>> {
    if |ps| == 0 then map[] else WriteOf(voc, ps[0]) + Writes(voc, ps[1..])
  }

  /** `creator` (through `Array(creator).select(&:present?)`) is not empty. */
  predicate HasCreator(doc: Document) {
    exists i :: 0 <= i < |Find(doc, "creator")| && !Blank(Find(doc, "creator")[i].value)
  }

  /** `descMetadata.identifier.type`: the type attribute of each identifier node that has one. */
  function TypesOf(ns: seq<Node>): seq<Value> {
    if |ns| == 0 then []
    else
      var last := ns[|ns| - 1];
      TypesOf(ns[..|ns| - 1])
        + (if last.attributes.Hash? && "type" in Keys(last.attributes.pairs)
           then [ValueAt(last.attributes.pairs, "type")] else [])
  }

  /** The `identifier` getter: the identifier types zipped with the identifier values. */
  function IdentifierPairs(doc: Document): seq<Value> {
    var ns := Find(doc, "identifier");
    Zip(TypesOf(ns), ValuesOf(ns))
  }
}
