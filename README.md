# Media object attribute mapping, in Dafny

This project models the attribute-to-metadata mapping engine of the media
object in a digital media repository (`app/models/media_object.rb`). A form
posts a flat hash of class attributes, such as `title`, `subject` and
`identifier`. With some of them come lists of `{value:, attributes:}` hashes.
`update_datastream` writes that hash into the descriptive metadata document.
It does so in these steps:

1. It clears the store of missing attributes.
2. It applies the identifier/identifier-type special case.
3. It drops blank array items and unpacks attribute hashes.
4. For each attribute, `update_attribute_in_metadata` resolves the metadata
   term. It removes every node at that term and re-inserts the non-blank
   values through a fixed four-way strategy chain.

The model also covers the small helpers of the same class:

- creator validation;
- the missing-attribute report;
- the publication flag;
- the ordered section pids;
- the `identifier` getter;
- the duration sum.

Layout:

- `wrappers.dfy`: `Option`.
- `ordered_hash.dfy`: Ruby's insertion-ordered hash, as a list of pairs. It
  holds `Keys`, `Get`, `Put` (`h[k] = v`) and `Remove` (`h.delete(k)`) and
  their laws.
- `ruby_values.dfy`: the form values (`nil`, strings, arrays, hashes).
  - ActiveSupport's `blank?`, with Unicode white space as `[[:space:]]` matches it.
  - `select`/`keep_if` of the non-blank items.
  - `Kernel#Array`, `Array#zip`, and `attributes[i] || {}`.
- `attribute_schema.dfy`: the class-attribute table (lines 68-94) and
  `find_metadata_attribute`.
  - The document class's capabilities form a `Vocabulary`:
    - the terminology's terms;
    - the terms with a node template;
    - the terms with an `add_<term>` method;
    - the terms with an object-level setter.
  - The strategy chain.
- `normalize.dfy`: the identifier special case, the per-pair dispatch
  (blank removal, hash unpacking, `Array(v)`) and the unpacking loop.
- `metadata.dfy`: the descriptive document as a map from term to an ordered
  list of `(value, attributes)` nodes, and the engine as functions:
  - `ApplyAttribute` (one `update_attribute_in_metadata` call);
  - `ApplyAll` (the `values.each` loop);
  - `Update` (one `update_datastream` call).
- `engine_properties.dfy`: what the engine guarantees, with proofs.
- `media_object.dfy`: the `MediaObject` class. Its fields are the document,
  the missing-attribute store, the errors, the section pids and the
  publisher. Its methods change those fields as the Ruby methods do. Each
  method is proved against the functions above.
- `durations.dfy`: `calculate_duration`, Ruby's `String#to_i` and
  `Integer#to_s`.

How Ruby's exceptions are modelled. The engine raises in four cases:

- a `nil` value (`nil.first`);
- a list of hashes mixed with other items (`entry[:value]` on a non-hash);
- identifiers posted with types, where the types or the identifiers are a
  string (`zip` on or with a string, line 221);
- identifiers posted without types as a string or a hash (neither has `map!`, line 223).

Identifier and type lists of different lengths do not raise: `zip` keeps
the length of the type list and pads with `nil`.

Each case is an `Option.None` from the dispatch functions and a
`completed == false` from `Update`/`UpdateDatastream`. The attributes handled
before the exception stay applied, as they do in Ruby.

Two orderings of the code matter:

- The strategy chain tries, in order:
  1. a node template (line 270);
  2. an `add_<term>` method (275);
  3. an object-level setter (283);
  4. the datastream setter (286).
- Identifiers are paired with their types (lines 221 and 223) before any
  blank filtering (229, 268). As a result, a blank identifier survives as
  an `['Other', '']` pair (`BlankIdentifierIsKept`).

## Model

| member | source | states |
|---|---|---|
| AttributeSchema.FindMetadataAttribute | app/models/media_object.rb:207-213 | The table entry wins when there is one. Otherwise the result is the attribute itself iff the terminology knows it, and nothing iff it does not. |
| AttributeSchema.ClassAttributeMap | app/models/media_object.rb:68-94 | The class-attribute table: its 23 entries, as the source lists them. `RenamingEntries` states which of them rename. |
| AttributeSchema.ResolvedTermOrigin | app/models/media_object.rb:207-213 | A resolved term is either the table's entry or the attribute's own name given by the terminology. |
| AttributeSchema.RenamingEntries | app/models/media_object.rb:68-94 | The six renaming entries of the table: avalon_uploader→creator, avalon_publisher→publisher, title→main_title, format→media_type, subject→topical_subject, related_item→related_item_id. Every other entry maps an attribute to itself. |
| AttributeSchema.ChooseStrategy | app/models/media_object.rb:270-287 | The four strategies in priority order: node template, then `add_<term>`, then object setter, then datastream setter. Each is chosen iff its test holds and every earlier test fails. |
| AttributeSchema.PerValue | app/models/media_object.rb:270-279 | The node-template and `add_<term>` strategies insert value by value. The two setters take the whole list. |
| OrderedHash.Get | app/models/media_object.rb:219-220 | Lookup of a posted key (`values[:identifier]`): nothing iff the key is absent, and a found value is stored under that key. |
| OrderedHash.Put | app/models/media_object.rb:265 | Definition of `h[k] = v` on an ordered hash. `PutGet`, `PutKeys` and `PutIdempotent` state its laws. |
| OrderedHash.PutGet | app/models/media_object.rb:265 | `missing_attributes[attribute] = message` stores the message and leaves every other key's value alone. |
| OrderedHash.PutPresentKeys | app/models/media_object.rb:265 | Re-storing under a present key keeps the key order. |
| OrderedHash.PutAbsentAppends | app/models/media_object.rb:265 | Storing under a new key appends the pair at the end. |
| OrderedHash.PutKeys | app/models/media_object.rb:265 | Together: the key order is kept or the key is appended, and the key set gains exactly the stored key. |
| OrderedHash.PutKeepsDistinct | app/models/media_object.rb:221-223 | Storing keeps the keys distinct, so the result is still a hash. |
| OrderedHash.Remove | app/models/media_object.rb:221 | Definition of `h.delete(k)` on an ordered hash. `RemoveGet`, `RemoveKeepsOrder` and `RemoveKeepsDistinct` state its laws. |
| OrderedHash.RemoveGet | app/models/media_object.rb:221 | `values.delete(:identifier_type)` removes that key, keeps every other key's value, and leaves exactly the other keys. |
| OrderedHash.RemoveConcat | app/models/media_object.rb:221 | Deleting from joined hashes deletes from each part. |
| OrderedHash.RemoveFirst | app/models/media_object.rb:221 | Deleting the first key, when no later pair has it, leaves the later pairs. |
| OrderedHash.RemoveAbsent | app/models/media_object.rb:221 | Deleting a key the hash lacks leaves the hash unchanged. |
| OrderedHash.RemoveKeepsOrder | app/models/media_object.rb:221 | Deleting a key removes its pair and keeps the other pairs in their order. |
| OrderedHash.RemoveKeepsDistinct | app/models/media_object.rb:221 | Deleting keeps the keys distinct. |
| OrderedHash.PutIdempotent | app/models/media_object.rb:265 | Storing the same message twice is storing it once. |
| OrderedHash.KeysConcat | app/models/media_object.rb:203-205 | The keys of joined hashes are the joined key lists, so the report order follows the insertion order. |
| RubyValues.KeepNonBlank | app/models/media_object.rb:229 | The filter keeps no blank item and never grows the list. |
| RubyValues.Blank | app/models/media_object.rb:229 | Definition of ActiveSupport's `blank?`: `nil`, white-space-only strings, and empty arrays and hashes. The `KeepNonBlank` lemmas use it. |
| RubyValues.KeepNonBlankMembers | app/models/media_object.rb:268 | An item survives the filter iff it was posted and is not blank. |
| RubyValues.KeepNonBlankEmpty | app/models/media_object.rb:61 | The filter leaves nothing iff every item is blank, which is the test `validate_creator` makes. |
| RubyValues.KeepNonBlankConcat | app/models/media_object.rb:268 | The filter commutes with concatenation, so order is kept. |
| RubyValues.KeepNonBlankOfPresent | app/models/media_object.rb:268 | A list without blanks passes unchanged. |
| RubyValues.KeepNonBlankOfBlanks | app/models/media_object.rb:268 | A list of blanks filters to nothing. |
| RubyValues.PairArrays | app/models/media_object.rb:247 | `Array(hash)` gives one `[key, value]` pair per entry, in order. |
| RubyValues.RubyArray | app/models/media_object.rb:247 | Definition of `Kernel#Array`: `nil` becomes `[]`, an array stays itself, a hash becomes its pairs, anything else becomes a one-item list. `StrDispatch` and `DispatchFiltersPlainLists` use it. |
| RubyValues.Zip | app/models/media_object.rb:221 | `types.zip(ids)` has the length of the type list, and pairs item i with identifier i or nil. |
| RubyValues.AttrsAt | app/models/media_object.rb:272 | `attributes[i] \|\| {}`: the posted hash when there is a truthy one at i, otherwise an empty hash. |
| Normalize.PairWithDefaultType | app/models/media_object.rb:223 | Every identifier becomes `['Other', id]`, one per identifier, in order. |
| Normalize.PrepareIdentifiers | app/models/media_object.rb:219-225 | Definition of the identifier special case. Its cases are stated by `IdentifiersZippedWithTypes`, `IdentifiersDefaultToOther`, `NoIdentifiersNoChange` and `PrepareIdentifiersKeys`. |
| Normalize.IdentifiersZippedWithTypes | app/models/media_object.rb:219-222 | With both lists posted, the identifier list becomes the types zipped with the identifiers, as long as the type list. The `identifier_type` key is gone and every other key is unchanged. |
| Normalize.IdentifiersDefaultToOther | app/models/media_object.rb:219-224 | Without a type list, each identifier is paired with 'Other'. The keys and every other value are unchanged. |
| Normalize.NoIdentifiersNoChange | app/models/media_object.rb:219 | Without identifiers the hash passes through untouched. |
| Normalize.PrepareIdentifiersKeys | app/models/media_object.rb:219-225 | The special case adds no keys and keeps the keys distinct. |
| Normalize.IdentifierExamples | app/models/media_object.rb:219-225 | ISBN/LCCN identifiers are zipped onto their types. A lone identifier is typed 'Other'. |
| Normalize.EmptyTypeListDropsIdentifiers | app/models/media_object.rb:220-221 | An empty but present type list is truthy, so zipping onto it loses every identifier. |
| Normalize.EntryFields | app/models/media_object.rb:240-243 | The unpacked list holds `entry[key]` of each entry, one per entry, in order. |
| Normalize.KeepIf | app/models/media_object.rb:229 | `keep_if` of the non-blank items, applied only when the value is an array. |
| Normalize.Dispatch | app/models/media_object.rb:229-247 | Definition of one pass of the `values.each` loop, up to the call it makes. Its cases are stated by `DispatchRaises`, `DispatchSplitsEntries` and `DispatchFiltersPlainLists`. |
| EngineProperties.TwoEntriesDispatch | app/models/media_object.rb:237-245 | Two posted `{value:, attributes:}` hashes are handed on as their value list and their attribute list. |
| Normalize.DispatchRaises | app/models/media_object.rb:229-247 | A pair raises iff its value is nil, or its first kept item is a hash while some other kept item is not. |
| Normalize.DispatchSplitsEntries | app/models/media_object.rb:237-245 | Hash entries split into value and attribute lists of equal length, in the original order. |
| Normalize.DispatchFiltersPlainLists | app/models/media_object.rb:229 | A plain list loses its blank items and carries no attributes. |
| Normalize.BlankFilteringExample | app/models/media_object.rb:229 | `["", "a", nil, "b"]` is dispatched as `["a", "b"]`. |
| Normalize.Unpack | app/models/media_object.rb:237-245 | The unpacking loop succeeds iff every entry is a hash, and it then builds exactly the two parallel field lists. |
| Metadata.ValuesOf | app/models/media_object.rb:252-254 | The values of some nodes, one per node, in document order. |
| Metadata.EachWithIndex | app/models/media_object.rb:271-273 | `each_with_index`: one node per given value, in order, and node i carries `attributes[i] \|\| {}`. |
| Metadata.AsWrittenEntries | app/models/media_object.rb:268-273 | As written, the i-th surviving value is paired with `attributes[i]` of the unfiltered list. This is what the engine inserts (see Findings). |
| Metadata.AlignedEntries | app/models/media_object.rb:268-278 | The corrected pairing: each non-blank value with the attributes posted at its own index. `AlignedValues` and `AlignedOwnAttributes` state its properties. The engine does not use it. |
| Metadata.Written | app/models/media_object.rb:268-287 | Definition of what a term holds after the re-insertion: the as-written per-value nodes for the first two strategies, and the bulk nodes for the setters. `WrittenValues` and `SingleValueWritten` state its properties. |
| Metadata.ApplyAttribute | app/models/media_object.rb:258-290 | Definition of one `update_attribute_in_metadata` call. `ApplyUnmapped`, `ApplyMapped`, `ApplyIdempotent` and `ApplyBlanksClears` state its properties. |
| Metadata.ApplyAll | app/models/media_object.rb:227-249 | Definition of the `values.each` loop. It stops at the first pair that raises. `ApplyAllDoc`, `ApplyAllMissing`, `ApplyAllCompletes`, `ApplyAllLastWriter` and `ApplyAllIdempotent` state its properties. |
| Metadata.Update | app/models/media_object.rb:215-250 | Definition of one `update_datastream` call. `UpdateReport`, `UpdateWritesMappedAttributes` and `UpdateIdempotent` state its properties. |
| Metadata.UnmappedReport | app/models/media_object.rb:261-266 | The independent account of the report: one not-found line per unresolved key, in order. `ApplyAllMissing` ties the run to it. |
| Metadata.Writes | app/models/media_object.rb:227-249 | The independent account of the writes: each resolving pair writes its term, and a later write wins. `ApplyAllDoc` ties the run to it. |
| Metadata.HasCreator | app/models/media_object.rb:61 | Some creator node has a non-blank value. `ValidateCreator` and `CreatorPresentAfterWrite` use it. |
| Metadata.TypesOf | app/models/media_object.rb:253 | `descMetadata.identifier.type`: the type attribute of each identifier node that has one, in order. |
| Metadata.IdentifierPairs | app/models/media_object.rb:252-254 | The `identifier` getter: the types zipped with the values. `IdentifierGetterPairs` states its result. |
| Metadata.Processed | app/models/media_object.rb:227-249 | The pairs got through are a prefix of the posted pairs. |
| Metadata.ProcessedDispatches | app/models/media_object.rb:227-249 | Every pair got through dispatches, and the first pair not got through raises. |
| EngineProperties.AlignedValues | app/models/media_object.rb:268-278 | The corrected pairing stores exactly the non-blank values, in input order. |
| EngineProperties.AlignedOwnAttributes | app/models/media_object.rb:270-278 | Under the corrected pairing, every node carries the attributes posted with its own value. |
| EngineProperties.AsWrittenValues | app/models/media_object.rb:268-273 | As written, per-value insertion stores exactly the non-blank values, in input order. Node i carries `attributes[i]` of the unfiltered list. |
| EngineProperties.BulkValues | app/models/media_object.rb:281-287 | A bulk setter stores exactly the non-blank values, in order, with no attributes. |
| EngineProperties.WrittenValues | app/models/media_object.rb:268-287 | Whatever the strategy, the term ends up holding the non-blank values in order. |
| EngineProperties.AlignedWithoutBlanks | app/models/media_object.rb:270-278 | Under the corrected pairing and without blanks, node i is value i with attributes i. |
| EngineProperties.AsWrittenAgreesWithoutBlanks | app/models/media_object.rb:268-278 | Without blanks, the pairing as written and the corrected pairing agree. |
| EngineProperties.AsWrittenMisaligns | app/models/media_object.rb:268-273 | As written, an empty "general" note hands its type to the next note. No posted value has the attributes that node gets. |
| EngineProperties.UpdateMisalignsNotes | app/models/media_object.rb:215-278 | A whole update posting an empty note with `a1`, then the note "text" with `a2`, completes and stores "text" with `a1`. |
| EngineProperties.ApplyUnmapped | app/models/media_object.rb:261-266 | An unresolved attribute records "Metadata attribute '<attr>' not found" under its name and changes nothing else, the document included. |
| EngineProperties.ApplyMapped | app/models/media_object.rb:267-288 | A resolved attribute's term holds exactly the non-blank values, in order. Every other term is untouched and nothing is reported. |
| EngineProperties.ApplyIdempotent | app/models/media_object.rb:268-288 | Repeating the same attribute update is the same as doing it once. |
| EngineProperties.ApplyBlanksClears | app/models/media_object.rb:268-269 | Blank-only input clears the term. |
| EngineProperties.ApplyAttributeDoc | app/models/media_object.rb:258-290 | One applied pair changes the document exactly by its own write. |
| EngineProperties.ApplyAllDoc | app/models/media_object.rb:227-249 | A run leaves the document overridden by the writes of the pairs it got through, a later write to a term winning. |
| EngineProperties.ApplyAllIgnoresDoc | app/models/media_object.rb:227-249 | The report and the completion of a run do not depend on the document. |
| EngineProperties.ApplyAllCompletes | app/models/media_object.rb:227-249 | A run completes iff it gets through every pair. |
| EngineProperties.ReportStep | app/models/media_object.rb:227-249 | A pair that does not raise puts its own line (if unresolved) in front of the rest of the report. |
| EngineProperties.ApplyAllMissing | app/models/media_object.rb:227-249 | Over a hash, the run appends exactly the unresolved keys it got through, in posting order. |
| EngineProperties.MissingAfterApply | app/models/media_object.rb:261-266 | An unresolved, unreported key is appended to the report. A resolved one adds nothing. |
| EngineProperties.ApplyAllMissingKeys | app/models/media_object.rb:227-266 | Every reported key was already reported or is an unresolved key of the run. |
| EngineProperties.WritesUntouched | app/models/media_object.rb:227-249 | A term no key resolves to is never written. |
| EngineProperties.WritesLast | app/models/media_object.rb:227-249 | The last key resolving to a term decides its nodes. |
| EngineProperties.ApplyAllLastWriter | app/models/media_object.rb:227-249 | After a completed run, each term holds what the last pair resolving to it wrote. |
| EngineProperties.ApplyAllUntouched | app/models/media_object.rb:227-249 | A term no pair resolves to keeps its nodes, even when the run raised part-way. |
| EngineProperties.UpdateWritesMappedAttributes | app/models/media_object.rb:215-250 | After a completed call, the last attribute mapping to a term decides its nodes, even when other attributes are unmapped. A term no attribute maps to is untouched. |
| EngineProperties.UpdateReport | app/models/media_object.rb:215-250 | The report is rebuilt from empty. It lists exactly the unresolved attributes among the pairs this call got through, in order. If the identifier case raises, the report is empty and the document unchanged. |
| EngineProperties.UpdateReportsOnlyItsOwnKeys | app/models/media_object.rb:216 | No stale failures: every reported key is an unresolved attribute posted to this call. |
| EngineProperties.ApplyAllIdempotent | app/models/media_object.rb:227-249 | Re-running the same pairs over the result changes nothing. |
| EngineProperties.UpdateIdempotent | app/models/media_object.rb:215-250 | Running the update twice with equal posted values equals running it once: document, report and outcome. |
| EngineProperties.PartialApplicationExample | app/models/media_object.rb:215-266 | `{title: "X", bogus_field: "Y"}` writes main_title "X" and reports bogus_field. |
| EngineProperties.StrDispatch | app/models/media_object.rb:247 | A one-character present string is wrapped as a one-item list. |
| EngineProperties.SingleValueWritten | app/models/media_object.rb:268-287 | One present value with no attributes is stored the same way by every strategy. |
| EngineProperties.TitleStep | app/models/media_object.rb:258-290 | The title step of the example writes main_title. |
| EngineProperties.BogusStep | app/models/media_object.rb:261-266 | The bogus_field step of the example reports it. |
| EngineProperties.EmptyListClears | app/models/media_object.rb:268-269 | Posting an empty list for a resolvable attribute clears its term. |
| EngineProperties.CreatorPresentAfterWrite | app/models/media_object.rb:60-64 | After a creator write, the creator is present iff a non-blank value was sent. |
| EngineProperties.TypesOfTyped | app/models/media_object.rb:252-254 | Typed identifier nodes give one type per node, in order. |
| EngineProperties.IdentifierGetterPairs | app/models/media_object.rb:252-254 | The getter returns one `[type, value]` pair per typed identifier node, in order. |
| EngineProperties.BlankIdentifierIsKept | app/models/media_object.rb:219-229 | Zipping before filtering: a blank identifier is stored as `['Other', '']`. |
| MediaObjects.RemovePid | app/models/media_object.rb:153-155 | The pid is gone, every other pid keeps its count, and the length drops by the pid's count. |
| MediaObjects.RemovePidConcat | app/models/media_object.rb:153-155 | Removal commutes with concatenation, so the survivors keep their order. |
| MediaObjects.RemovePidIdempotent | app/models/media_object.rb:153-155 | Removing a part twice is removing it once. |
| MediaObjects.MediaObject.constructor | app/models/media_object.rb:199-201 | A new object has an empty document, an empty missing store, no errors, no sections and no publisher. |
| MediaObjects.MediaObject.IsPublished | app/models/media_object.rb:140-142 | `published?`: the publisher is not blank. `Publish` states its value after a publish. |
| MediaObjects.MediaObject.Publish | app/models/media_object.rb:186-189 | A blank key stores nil, any other key is stored, and the object is then published iff the key is not blank. |
| MediaObjects.MediaObject.ValidateCreator | app/models/media_object.rb:60-64 | Adds one blank-creator error iff no non-blank creator is present. |
| MediaObjects.MediaObject.ReportMissingAttributes | app/models/media_object.rb:203-205 | The errors gain exactly the missing store's entries, in order. |
| MediaObjects.MediaObject.UpdateAttributeInMetadata | app/models/media_object.rb:258-290 | The new document and store are `ApplyAttribute` of the old ones. Returns true iff the attribute resolves. |
| MediaObjects.MediaObject.InsertEachValue | app/models/media_object.rb:271-278 | The loop over the filtered values appends at the term value i with `attributes[i]` (`EachWithIndex`), and changes no other term. |
| MediaObjects.MediaObject.ApplyPair | app/models/media_object.rb:227-248 | One pass of the loop. It succeeds iff the pair dispatches, and then applies the dispatched arguments. Otherwise nothing changes. |
| MediaObjects.MediaObject.UpdateDatastream | app/models/media_object.rb:215-250 | The new document, store and completion flag are those of `Update` on the old document. |
| MediaObjects.MediaObject.SetSectionPid | app/models/media_object.rb:165-168 | The stored pids are replaced by the given ones, not appended to. |
| MediaObjects.MediaObject.PartsWithOrderRemove | app/models/media_object.rb:153-159 | The stored pids lose exactly the given pid and keep the rest in order. |
| Durations.SkipSpaces | app/models/media_object.rb:351 | `to_i` skips a leading run of ASCII spaces and nothing more. |
| Durations.ToI | app/models/media_object.rb:351 | Definition of `String#to_i` in base 10. The `ToIOf…` lemmas state its cases and its round trip with `to_s`. |
| Durations.CalculateDuration | app/models/media_object.rb:350-352 | Definition of `calculate_duration` over the parts' durations. `CalculateDurationConcat`, `CalculateDurationOfRendered` and `MissingDurationsAddNothing` state its properties. |
| Durations.Numeral | app/models/media_object.rb:351 | The leading numeral is digits only, starts at the first digit, and is empty when there is none. |
| Durations.NatToS | app/models/media_object.rb:196 | `to_s` writes digits only, without leading zeros. |
| Durations.IntToS | app/models/media_object.rb:196 | `to_s` writes a minus sign iff the number is negative. |
| Durations.NumeralOfDigits | app/models/media_object.rb:351 | A string of digits is read whole. |
| Durations.DecimalOfNatToS | app/models/media_object.rb:196 | The digits `to_s` writes read back as the number. |
| Durations.ToIOfIntToS | app/models/media_object.rb:195-197 | `n.to_s.to_i == n`: the stored duration reads back as the sum. |
| Durations.CalculateDurationConcat | app/models/media_object.rb:350-352 | The total over joined part lists is the sum of the totals. |
| Durations.CalculateDurationOfRendered | app/models/media_object.rb:350-352 | Parts whose durations `to_s` wrote add up to the sum of the numbers. |
| Durations.MissingDurationsAddNothing | app/models/media_object.rb:351 | A part without a duration (`nil.to_i`) adds 0. |
| Durations.SkipSpacesPrefix | app/models/media_object.rb:351 | Leading spaces are skipped up to the first other character. |
| Durations.NumeralStops | app/models/media_object.rb:351 | The numeral ends at the first character that cannot continue it. |
| Durations.NumeralUnderscore | app/models/media_object.rb:351 | A single underscore between digits is skipped. |
| Durations.ReadSignedNumeral | app/models/media_object.rb:351 | After an optional sign, the numeral is read and negated for '-'. |
| Durations.ToIAfterSpaces | app/models/media_object.rb:351 | `to_i` ignores leading spaces. |
| Durations.ToIOfPaddedNumeral | app/models/media_object.rb:351 | `to_i` reads the numeral after the spaces and ignores what follows it. |
| Durations.ToIOfNegativeNumeral | app/models/media_object.rb:351 | A minus sign negates the numeral. |
| Durations.ToIOfPositiveNumeral | app/models/media_object.rb:351 | A plus sign is dropped. |
| Durations.ToIOfNonNumeric | app/models/media_object.rb:351 | Text starting with neither a digit nor a sign reads as 0. |
| Durations.ToIOfGroupedNumeral | app/models/media_object.rb:351 | `"1_000".to_i == 1000`: grouped digits are read as one number. |
| Durations.DoubleUnderscoreEndsNumeral | app/models/media_object.rb:351 | `"1__0".to_i == 1`: two underscores end the numeral. |

## Left out

- `to_solr` (lines 316-337) is not modelled. It is a projection for the search index and uses an external field-naming library.
- `set_media_types!` (292-314) is not modelled. It looks up MIME types from file extensions in an external table, inside an exception-swallowing wrapper.
- `destroy`, `collection=`, `after_create`, `update_permalink_and_dependents` and the `before_save` hooks are not modelled. They are persistence, associations, permalinks and repository calls. `publish!` is modelled without its `save`.
- The document library's internals are abstract:
  - `template_registry`, `add_child_node`, `add_<term>` and the setters are a term→nodes map and the capability sets of the `Vocabulary`;
  - `find_by_terms(...).each(&:remove)` is replacing the term's list.
- MediaObjects.MediaObject.UpdateAttributeInMetadata: an object-level or datastream setter is modelled as storing the filtered values without attributes. What a particular `has_attributes ... multiple: false` setter does with a list, and any side effect it has, is not modelled.
- Nodes inserted for a term outside the terminology are not modelled: the model stores them under the term, while the real document may raise.
- `update_datastream` changes the caller's hash in place (`delete`, `map!`, `keep_if`, lines 221, 223 and 229). That is not modelled: the model works on a value, so the caller never sees those changes. In Ruby, passing the same hash object a second time wraps its identifiers again (`['Other', ['Other', '123']]`). `UpdateIdempotent` speaks of two calls with equal, freshly posted values.
- TypesOf: where the identifier template puts the type of an identifier node is abstracted away. The model's identifier write stores each `[type, id]` pair as the node's value, with no attributes. So `IdentifierPairs` after an update through the model gives `[]`, and `IdentifierGetterPairs` speaks of typed identifier nodes as the real template builds them.
- The `datastream` parameter of `update_datastream` is unused by the code and is not a parameter of the model.
- Symbol and string keys are not told apart: attributes and hash fields are strings.
- `parts_with_order` goes through `MasterFile.find`. Parts are modelled by their pids, and every pid is assumed to resolve.
- Durations.CalculateDuration: the parts' durations are the parameter, since `MasterFile` is not part of this model. `String#to_i` is modelled for base 10 without the `0d` radix prefix.
- The deployment configuration, the collections controller, the migration object mover and the asset manifest are not part of this model.

## Findings

| source | as written | input that shows it | evidently intended | confidence | as-written member | corrected member |
|---|---|---|---|---|---|---|
| app/models/media_object.rb:268-278 | Blank values are dropped first. The i-th survivor is then paired with `attributes[i]`, indexed by the unfiltered list. | `note: [{value: "", attributes: {type: "general"}}, {value: "text", attributes: {type: "awards"}}]` stores "text" with type "general" | Each value keeps the attributes posted with it, so "text" stores with type "awards" | not executed | Metadata.AsWrittenEntries, EngineProperties.AsWrittenMisaligns, EngineProperties.UpdateMisalignsNotes | Metadata.AlignedEntries (EngineProperties.AlignedOwnAttributes, EngineProperties.AlignedValues) |

The engine functions (`Written`, `ApplyAttribute`, `ApplyAll`, `Update`) and
the `MediaObject` methods run the code as written. `UpdateMisalignsNotes`
shows the shift through a whole update. `AlignedEntries` is the corrected
definition, and `AlignedOwnAttributes` proves the intended property of it.
`EngineProperties.AsWrittenAgreesWithoutBlanks` shows that the two pairings
agree whenever no blank value is posted.
