/**
 * Where a class attribute lives in the descriptive metadata document, and how
 * the document accepts new values for a term.
 */
module AttributeSchema {
  import opened Wrappers

  /**
   * What the descriptive metadata document (and the object around it) offers:
   * the terms of its terminology, the terms the template registry has a node
   * type for, the terms the document has an `add_<term>` method for, and the
   * terms the media object itself has a `<term>=` setter for.
   */
  datatype Vocabulary = Vocabulary(
    terms: set<string>,
    nodeTemplates: set<string>,
    adders: set<string>,
    objectSetters: set<string>)

  /** The explicit class attribute -> metadata term table. */
  const ClassAttributeMap: map<string, string> := map[
    "avalon_uploader" := "creator",
    "avalon_publisher" := "publisher",
    "title" := "main_title",
    "alternative_title" := "alternative_title",
    "translated_title" := "translated_title",
    "uniform_title" := "uniform_title",
    "statement_of_responsibility" := "statement_of_responsibility",
    "creator" := "creator",
    "date_created" := "date_created",
    "date_issued" := "date_issued",
    "copyright_date" := "copyright_date",
    "abstract" := "abstract",
    "note" := "note",
    "format" := "media_type",
    "contributor" := "contributor",
    "publisher" := "publisher",
    "genre" := "genre",
    "subject" := "topical_subject",
    "related_item" := "related_item_id",
    "geographic_subject" := "geographic_subject",
    "temporal_subject" := "temporal_subject",
    "topical_subject" := "topical_subject",
    "identifier" := "identifier"
  ]

  /**
   * The metadata term for a class attribute: the table's entry first; failing
   * that the attribute's own name when the terminology knows it; else nothing.
   */
  function FindMetadataAttribute(voc: Vocabulary, attribute: string): (r: Option<string>)
    ensures attribute in ClassAttributeMap ==> r == Some(ClassAttributeMap[attribute])
    ensures attribute !in ClassAttributeMap ==> (r == Some(attribute) <==> attribute in voc.terms)
    ensures attribute !in ClassAttributeMap ==> (r.None? <==> attribute !in voc.terms)
  {
    if attribute in ClassAttributeMap then Some(ClassAttributeMap[attribute])
    else if attribute in voc.terms then Some(attribute)
    else None
  }

  /** A resolved term is a table target or the attribute's own name. */
  lemma ResolvedTermOrigin(voc: Vocabulary, attribute: string)
    requires FindMetadataAttribute(voc, attribute).Some?
    ensures var t := FindMetadataAttribute(voc, attribute).value;
      (attribute in ClassAttributeMap && t == ClassAttributeMap[attribute])
      || (attribute !in ClassAttributeMap && t == attribute && t in voc.terms)
  {
  }

  /**
   * The six entries of the table that rename the attribute, whatever the
   * terminology says; every other entry maps an attribute to itself.
   */
  lemma RenamingEntries(voc: Vocabulary)
    ensures FindMetadataAttribute(voc, "avalon_publisher") == Some("publisher")
    ensures FindMetadataAttribute(voc, "title") == Some("main_title")
    ensures FindMetadataAttribute(voc, "subject") == Some("topical_subject")
    ensures FindMetadataAttribute(voc, "format") == Some("media_type")
    ensures FindMetadataAttribute(voc, "related_item") == Some("related_item_id")
    ensures FindMetadataAttribute(voc, "avalon_uploader") == Some("creator")
    ensures forall a :: a in ClassAttributeMap && ClassAttributeMap[a] != a ==>
      a in {"avalon_uploader", "avalon_publisher", "title", "format", "subject", "related_item"}
  {
  }

  /** How values for a term are written back, one per branch of the source. */
  datatype Strategy =
    | NodeTemplate      // template_registry.has_node_type?: add_child_node per value
    | NamedAdder        // descMetadata responds to add_<term>: call it per value
    | ObjectSetter      // the media object responds to <term>=: one bulk call
    | DatastreamSetter  // otherwise descMetadata.<term>= : one bulk call

  /** The strategy for a term, tried in the source's fixed priority order. */
  function ChooseStrategy(voc: Vocabulary, term: string): (s: Strategy)
    ensures s == NodeTemplate <==> term in voc.nodeTemplates
    ensures s == NamedAdder <==> term !in voc.nodeTemplates && term in voc.adders
    ensures s == ObjectSetter <==>
      term !in voc.nodeTemplates && term !in voc.adders && term in voc.objectSetters
    ensures s == DatastreamSetter <==>
      term !in voc.nodeTemplates && term !in voc.adders && term !in voc.objectSetters
  {
    if term in voc.nodeTemplates then NodeTemplate
    else if term in voc.adders then NamedAdder
    else if term in voc.objectSetters then ObjectSetter
    else DatastreamSetter
  }

  /** Per-value strategies keep attributes; the two setters take the bare value list. */
  predicate PerValue(s: Strategy) {
    s == NodeTemplate || s == NamedAdder
  }
}
