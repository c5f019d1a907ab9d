# OWL/XML parser of pronto, modelled in Dafny

This project models the OWL/XML parser of the pronto ontology library
(`pronto/parser/owl.py`). The parser has three stages:

- **Scanner.** `OwlXMLParser.read` makes one forward pass over the parse
  events of a document. It binds each namespace prefix as it is declared,
  records the `rdf:resource` of every `owl:imports` element, and puts every
  completed `owl:Class` element on a work queue.
- **Workers.** Each worker (`_OwlXMLClassifier.run`) takes class elements
  off the queue until it reads the `None` sentinel. It classifies each one
  (`_classify`) and publishes every non-empty `(tid, record)` pair. To
  classify, it walks the element's children in order. For each child it
  tries a three-rule translator table: `rdfs:label` stores `name`,
  `rdfs:subClassOf` with `rdf:resource` appends to `relations['is_a']`,
  and `rdfs:comment` merges the parsed comment into the record. The first
  rule whose hook holds wins.
- **Aggregator.** `OwlXMLParser.makeTree` drains the published pairs into
  the term map. A later pair with the same id overwrites an earlier one.

The format hook (`hook`) accepts a path whose `os.path.splitext` extension
is `.owl`, `.xml` or `.ont`.

Modules, one per component:

- `Python` (python.dfy): the Python values a record holds and the dict
  operations that can raise.
- `Xml` (xml.dfy): elements, and the helpers of `pronto.utils`.
- `Classification` (classification.dfy): the translator and the fold.
- `Worker` (worker.dfy): the worker class, `_classify` and `run`.
- `Scanning` (scanning.dfy): the scan as a state machine over events.
- `Aggregation` (aggregation.dfy): terms and their aggregation.
- `PathExt` (path_ext.dfy): `os.path.splitext`.
- `Owl` (owl.dfy): the parser class with `hook`, `read` and `makeTree`.

Parts of the source change state in place, and the model keeps that form:

- `_classify`, `run`, `read` and `makeTree` are methods with loops.
- The worker and the parser are classes whose fields are the queues, the
  namespace table, the import list and the term map.
- Each method is proved equal to a specification function: `FoldChildren`
  and `ClassifyElement`, `Drain`, `Scan`, `Aggregate`. The lemmas state
  what the source promises about those functions.

Behaviour of the code the model keeps:

- The worker ignores the namespace table it is given. It uses a table
  holding only `rdf` and `rdfs` (owl.py:45-46).
- The `subClassOf` rule fires only when `rdf:resource` is present. So the
  fallback to `rdf:about` (owl.py:95) happens only when the resource value
  is the empty string, and then `format_accession` may receive `None`.
- `makeTree` rebuilds `relations` from every top-level key of the record
  (owl.py:197), not from the record's own `relations` entry. So the
  `is_a` list ends up under `Relationship('relations')`. Lemma
  `RelationsFromTopLevelKeys` states this.
- An exception in `_classify` ends the worker's loop. The model does not
  drop the element and go on.
- An `owl:imports` element without `rdf:resource` raises `KeyError` and
  ends `read`.

## Model

| member | source | states |
|---|---|---|
| `Classification.FirstMatchFrom` | pronto/parser/owl.py:108-127 | the rule picked for a child is the first, from the given index, whose hook holds; no rule before it matches; `None` means no rule matches |
| `Classification.ClassifyElement` | pronto/parser/owl.py:79-84 | the classification is `{}` exactly when the element has no attributes; otherwise the id is the accession of its `rdf:about` |
| `Classification.TranslatorDispatch` | pronto/parser/owl.py:86-127 | each child is handled by at most one rule, the first among label, subClassOf (with `rdf:resource`), comment whose hook holds; label overwrites `name`, subClassOf runs the list action, comment merges the parsed metadata at top level, and a child matching no hook leaves the record unchanged |
| `Classification.AppendTarget` | pronto/parser/owl.py:115-120 | the list action creates `relations['is_a']` on first use and appends the accession to it afterwards |
| `Classification.FoldWithoutComments` | pronto/parser/owl.py:84-127 | with no comment child the fold never raises; `name` is `''` without a label child and otherwise the text (possibly `None`) of the last label child; `relations` is `{}` or `{'is_a': targets}` with the accessions of the subClassOf children carrying `rdf:resource` in document order; `desc` stays `''`; no other key appears |
| `Classification.ClassifyWithoutComments` | pronto/parser/owl.py:79-130 | an element with attributes and no comment child classifies to its `rdf:about` accession and the record of FoldWithoutComments |
| `Classification.FoldWithQuietComments` | pronto/parser/owl.py:84-127 | when no comment child's parsed metadata holds `name` or `relations`, the fold never raises; `name` is `''` without a label child and otherwise the text of the last label child; `relations` is `{}` or `{'is_a': targets}` with the subClassOf accessions in document order, whatever else the comments add |
| `Classification.ClassifyWithQuietComments` | pronto/parser/owl.py:79-130 | an element with attributes whose comments leave `name` and `relations` alone classifies to its `rdf:about` accession, with the `name` and `is_a` targets of FoldWithQuietComments |
| `Classification.FoldConcat` | pronto/parser/owl.py:106-127 | the children are folded in document order: folding two runs of children is folding the second from the record the first produced, and an exception in the first is the result |
| `Classification.FoldErrorSticks` | pronto/parser/owl.py:106-127 | once a child raises, the children after it are never processed and the exception is the outcome |
| `Classification.CommentMergesTopLevel` | pronto/parser/owl.py:100-124 | a comment child merges the keys of `parse_comment(text)` into the record at top level: they overwrite earlier `name`, `desc` or `relations`, and all other keys are kept |
| `Worker.Drain` | pronto/parser/owl.py:48-62 | the drain loop takes at most the whole queue, publishes at most one pair per item taken, and takes every item when it ends for lack of items |
| `Worker.DrainStopsAtFirst` | pronto/parser/owl.py:50-62 | the loop stops at the first `None` or at the first element whose classification raises, with that exception; every item taken before the last is an element that classifies without exception, and the queue runs dry only when it holds neither |
| `Worker.DrainUpToSentinel` | pronto/parser/owl.py:50-62 | with elements that classify without exception followed by `None`, the worker takes exactly the elements and the sentinel, never looks past the sentinel, and publishes the non-empty classifications in queue order |
| `Worker.RecordsComeFromClassifiedElements` | pronto/parser/owl.py:59-62 | every published pair is the classification of a queued element with attributes; an element without attributes produces no record |
| `Worker.OwlXmlClassifier.constructor` | pronto/parser/owl.py:39-46 | the worker keeps both queues and ignores the namespace table it is given, using only the `rdf`/`rdfs` table |
| `Worker.OwlXmlClassifier.Classify` | pronto/parser/owl.py:64-130 | the loop over the children computes exactly `ClassifyElement`, returning the first exception a child raises |
| `Worker.OwlXmlClassifier.ApplyTranslator` | pronto/parser/owl.py:108-127 | the loop over the rules, with `break` after the first rule whose hook holds, updates the record as that rule's action does, and leaves it unchanged when no hook holds |
| `Worker.OwlXmlClassifier.ApplyRule` | pronto/parser/owl.py:112-124 | the `store`, `list` and `update` actions update the record as `ApplyAction` states, raising `KeyError`, `TypeError` or `AttributeError` where the dict operations do |
| `Worker.OwlXmlClassifier.DrainQueue` | pronto/parser/owl.py:48-62 | the `while True` loop takes exactly the items `Drain` consumes, publishes exactly its pairs in order, and ends as it does: on the sentinel, on the classifier's exception, or on an empty queue |
| `Worker.OwlXmlClassifier.Run` | pronto/parser/owl.py:48-62 | the worker's queue loses exactly the items `Drain` consumes, the results queue gains exactly the pairs it publishes, and the loop ends as it does |
| `Scanning.Step` | pronto/parser/owl.py:163-175 | a stopped scan ignores events; a `start` event changes nothing; namespace bindings are never removed; imports and the class queue only grow, by at most one entry, at their end |
| `Scanning.ScanSettles` | pronto/parser/owl.py:163-166 | after the scan halts or raises, later events change nothing |
| `Scanning.NoElementHalts` | pronto/parser/owl.py:165-166 | an event whose element is `None` ends the scan with the state it had |
| `Scanning.ScanDecomposes` | pronto/parser/owl.py:163-175 | a scan that reads every event ends with the declared bindings applied in order, and with exactly one import target per `end` of an `owl:imports` element and one queued element per `end` of an `owl:Class` element, both in document order |
| `Scanning.LastBindingWins` | pronto/parser/owl.py:168-169 | a prefix is bound to the URI of its last declaration |
| `Scanning.UnboundPrefixKept` | pronto/parser/owl.py:168-169 | a prefix the events do not declare keeps its binding, or stays unbound |
| `Scanning.StartEventsInert` | pronto/parser/owl.py:171-175 | removing every `start` event leaves the scan's outcome unchanged |
| `Aggregation.MakeTerm` | pronto/parser/owl.py:196-199 | the term keeps the id, its relations have one entry `Relationship(k)` for each top-level key `k` of the record, holding that key's value, and every other keyword argument is the record's own value |
| `Aggregation.AggregateKeys` | pronto/parser/owl.py:195-199 | after draining, the term map holds exactly its old ids and the ids of the drained pairs |
| `Aggregation.AggregateLastWriteWins` | pronto/parser/owl.py:195-199 | an id drained several times holds the term built from its last pair |
| `Aggregation.AggregateUntouched` | pronto/parser/owl.py:195-199 | an id no drained pair carries keeps its term |
| `Aggregation.RelationsFromTopLevelKeys` | pronto/parser/owl.py:197 | for an element without comment children, the term's relations are keyed by `name`, `relations` and `desc`; the is_a targets sit under `Relationship('relations')`, and there is no `Relationship('is_a')` |
| `PathExt.SplitExtYields` | pronto/parser/owl.py:152 | `os.path.splitext` yields a given extension exactly when the path ends in it after a file name that is not all dots |
| `Owl.OwlXmlParser.constructor` | pronto/parser/owl.py:143-147 | a new parser has an empty namespace table and the extensions `.owl`, `.xml`, `.ont` |
| `Owl.OwlXmlParser.Hook` | pronto/parser/owl.py:149-152 | `None` without a path; otherwise true exactly when the path ends in `.owl`, `.xml` or `.ont` after a file name that is not all dots |
| `Owl.OwlXmlParser.ScanEvents` | pronto/parser/owl.py:163-175 | the loop over the events computes exactly `Scan`, returning as soon as an event has no element or an import lacks `rdf:resource` |
| `Owl.OwlXmlParser.Read` | pronto/parser/owl.py:154-175 | the namespace table, the import list and the class queue end as `Scan` states, and the result says how the scan ended |
| `Owl.OwlXmlParser.MakeTree` | pronto/parser/owl.py:180-199 | the loop empties the results queue and leaves the term map as `Aggregate` states |

## Left out

- lxml (`iterparse`, `fromstring`, `tostring`) is not modelled. The document arrives as a finite sequence of events. A class element travels to the workers as the element value itself, so serialising and re-parsing it is the identity. Tokenizer errors and malformed fragments do not arise.
- Processes and queues are not modelled as concurrent. A worker's queue and the results queue are sequences. Several workers interleaving, and the result not depending on their number, are not modelled.
- `init_workers` and `shut_workers` are not part of this model (their code is not visible). This includes the sentinels they push.
- The `qsize()` test at owl.py:195 is racy between processes. `MakeTree` drains the whole results queue as it stands.
- Worker.OwlXmlClassifier.Run: the pairs go onto the results queue when the loop ends, not one at a time. The final state is the same, and no other process reads the queue in this model.
- Owl.OwlXmlParser.Read: likewise, the namespace table, the import list and the class queue are written back when the scan ends, not event by event. No worker reads the class queue during the scan in this model.
- Worker.OwlXmlClassifier.DrainQueue: when the queue runs dry without a sentinel, the model stops with `Starved`. The source would block waiting for more items.
- `explicit_namespace`, `format_accession` and `parse_comment` (from `pronto.utils`) are total functions passed in as `Xml.Utils`. Their code is not visible. In the model they never raise, for example on an unbound prefix, and an exception they might throw is not captured.
- Owl.OwlXmlParser.MakeTree: term ids are assumed hashable. The code of `format_accession` is not part of this model, so an id may be any Python value here. For a list or dict id, `self.terms[tid] = ...` at owl.py:199 would raise `TypeError`, and the model does not capture that.
- `Relationship` is modelled as an injective wrapper around the kind name. `pronto.term.Term` is a record of its keyword arguments. Neither class's code is visible, so any checking they do is not modelled.
- Python values are limited to `None`, `str`, `list` and `dict` with `str` keys. Other value types that `parse_comment` might return are not represented.
- Dicts and lists are modelled as values. Aliasing between them, such as one dict shared under two keys of a parsed comment, is not modelled.
- Owl.OwlXmlParser.Hook: it follows POSIX `os.path.splitext` only (separator `/`). Keyword arguments other than `path` are ignored.
- `manage_imports` and `metanalyze` are not modelled: their bodies are empty.
- The module-level string literals and the `OwlXMLParser()` call at import time are not modelled: they are documentation and a side effect only.
