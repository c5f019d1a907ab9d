/** What a worker makes of one `owl:Class` element: the translator rule
    table, the first-match dispatch of each child to one rule, and the
    fold of the children into a term record. */
module Classification {
  import opened Python
  import opened Xml

  /** A term record: `name`, `relations`, `desc`, and whatever keys the
      comment metadata adds. */
  type Record = map<string, PyValue>

  /** How a rule stores what its callback extracted. */
  datatype Action =
    | Store(dest: string)                   // record[dest] = value
    | Append(dest: string, listTo: string)  // record[dest][listTo].append(value)
    | Update                                // record.update(value)

  /** One row of the translator table. */
  datatype Rule = Rule(hook: Element -> bool, callback: Element -> PyValue, action: Action)

  /** `{}` for an element without attributes, otherwise `(tid, record)`. */
  datatype Classification = Empty | Classified(id: PyValue, record: Record)

  /** The record every classified element starts from. */
  function InitialRecord(): Record {
    map["name" := PyStr(""), "relations" := PyDict(map[]), "desc" := PyStr("")]
  }

  predicate IsLabel(u: Utils, ns: NsMap, c: Element) {
    c.tag == u.explicitNamespace("rdfs:label", ns)
  }

  predicate IsSubClassOf(u: Utils, ns: NsMap, c: Element) {
    c.tag == u.explicitNamespace("rdfs:subClassOf", ns)
    && u.explicitNamespace("rdf:resource", ns) in c.attrib
  }

  predicate IsComment(u: Utils, ns: NsMap, c: Element) {
    c.tag == u.explicitNamespace("rdfs:comment", ns)
  }

  /** The accession of a `rdfs:subClassOf` target: `rdf:resource`, or
      `rdf:about` when the resource value is empty. */
  function Accession(u: Utils, ns: NsMap, c: Element): PyValue {
    u.formatAccession(
      OrElse(Get(c, u.explicitNamespace("rdf:resource", ns)), Get(c, u.explicitNamespace("rdf:about", ns))),
      ns)
  }

  /** The translator table, in the order its rules are tried. */
  function Translator(u: Utils, ns: NsMap): seq<Rule> {
    [ Rule(c => IsLabel(u, ns, c), (c: Element) => FromOptional(c.text), Store("name")),
      Rule(c => IsSubClassOf(u, ns, c), c => Accession(u, ns, c), Append("relations", "is_a")),
      Rule(c => IsComment(u, ns, c), (c: Element) => PyDict(u.parseComment(c.text)), Update) ]
  }

  /** The index of the first rule from `j` on whose hook holds of `c`. */
  function FirstMatchFrom(rules: seq<Rule>, c: Element, j: nat): (r: Option<nat>)
    requires j <= |rules|
    ensures r.Some? ==> j <= r.value < |rules| && rules[r.value].hook(c)
    ensures r.Some? ==> forall k :: j <= k < r.value ==> !rules[k].hook(c)
    ensures r.None? ==> forall k :: j <= k < |rules| ==> !rules[k].hook(c)
    decreases |rules| - j
  {
    if j == |rules| then None
    else if rules[j].hook(c) then Some(j)
    else FirstMatchFrom(rules, c, j + 1)
  }

  /** One rule's action applied to the value its callback extracted. */
  function ApplyAction(action: Action, value: PyValue, rec: Record): Result<Record, Exception> {
    match action
    case Store(dest) => Ok(rec[dest := value])
    case Append(dest, listTo) =>
      if dest !in rec then Err(KeyError(dest))
      else
        var container :- if Truthy(rec[dest]) then Ok(rec[dest]) else SetItem(rec[dest], listTo, PyList([]));
        var appended :- AppendItem(container, listTo, value);
        Ok(rec[dest := appended])
    case Update =>
      if value.PyDict? then Ok(rec + value.entries) else Err(TypeError)
  }

  /** A child handled by the first rule whose hook holds, or by none. */
  function ApplyFirst(rules: seq<Rule>, rec: Record, c: Element): Result<Record, Exception> {
    match FirstMatchFrom(rules, c, 0)
    case None => Ok(rec)
    case Some(k) => ApplyAction(rules[k].action, rules[k].callback(c), rec)
  }

  /** The children folded, in document order, into the record; the first
      exception ends the fold. */
  function FoldChildren(rules: seq<Rule>, rec: Record, cs: seq<Element>): Result<Record, Exception>
    decreases |cs|
  {
    if cs == [] then Ok(rec)
    else
      var r :- FoldChildren(rules, rec, cs[..|cs| - 1]);
      ApplyFirst(rules, r, cs[|cs| - 1])
  }

  /** The classification of one `owl:Class` element under the namespace
      table `ns`. */
  function ClassifyElement(u: Utils, ns: NsMap, term: Element): (r: Result<Classification, Exception>)
    ensures r == Ok(Empty) <==> term.attrib == map[]
    ensures r.Ok? && r.value.Classified? ==>
              r.value.id == u.formatAccession(Get(term, u.explicitNamespace("rdf:about", ns)), ns)
  {
    if term.attrib == map[] then Ok(Empty)
    else
      var tid := u.formatAccession(Get(term, u.explicitNamespace("rdf:about", ns)), ns);
      var rec :- FoldChildren(Translator(u, ns), InitialRecord(), term.children);
      Ok(Classified(tid, rec))
  }

  // ---------------------------------------------------------------------
  // The translator, described child by child

  /** Which rule of the translator a child falls under. */
  datatype ChildKind = LabelChild | SubClassChild | CommentChild | OtherChild

  function KindOf(u: Utils, ns: NsMap, c: Element): ChildKind {
    if IsLabel(u, ns, c) then LabelChild
    else if IsSubClassOf(u, ns, c) then SubClassChild
    else if IsComment(u, ns, c) then CommentChild
    else OtherChild
  }

  /** Each child is handled by exactly the first rule, in the order label,
      subClassOf, comment, whose hook holds; a child matching none leaves
      the record unchanged. */
  lemma TranslatorDispatch(u: Utils, ns: NsMap, rec: Record, c: Element)
    ensures ApplyFirst(Translator(u, ns), rec, c) ==
      match KindOf(u, ns, c)
      case LabelChild => Ok(rec["name" := FromOptional(c.text)])
      case SubClassChild => ApplyAction(Append("relations", "is_a"), Accession(u, ns, c), rec)
      case CommentChild => Ok(rec + u.parseComment(c.text))
      case OtherChild => Ok(rec)
  {
    var t := Translator(u, ns);
    var m := FirstMatchFrom(t, c, 0);
    match KindOf(u, ns, c)
    case LabelChild =>
      assert t[0].hook(c);
      assert m == Some(0);
    case SubClassChild =>
      assert !t[0].hook(c) && t[1].hook(c);
      assert m == Some(1);
    case CommentChild =>
      assert !t[0].hook(c) && !t[1].hook(c) && t[2].hook(c);
      assert m == Some(2);
    case OtherChild =>
      assert !t[0].hook(c) && !t[1].hook(c) && !t[2].hook(c);
      assert m == None;
  }

  /** The label children, in document order. */
  function Labels(u: Utils, ns: NsMap, cs: seq<Element>): seq<Element>
    decreases |cs|
  {
    if cs == [] then []
    else
      var last := cs[|cs| - 1];
      Labels(u, ns, cs[..|cs| - 1]) + if KindOf(u, ns, last) == LabelChild then [last] else []
  }

  /** The accessions of the `rdfs:subClassOf` children that carry
      `rdf:resource`, in document order. */
  function IsATargets(u: Utils, ns: NsMap, cs: seq<Element>): seq<PyValue>
    decreases |cs|
  {
    if cs == [] then []
    else
      var last := cs[|cs| - 1];
      IsATargets(u, ns, cs[..|cs| - 1]) + if KindOf(u, ns, last) == SubClassChild then [Accession(u, ns, last)] else []
  }

  /** `''` without a label child, otherwise the text of the last one. */
  function NameFromLabels(labels: seq<Element>): PyValue {
    if labels == [] then PyStr("") else FromOptional(labels[|labels| - 1].text)
  }

  /** `{}` until the first `is_a` target, then `{'is_a': targets}`. */
  function RelationsFromTargets(targets: seq<PyValue>): PyValue {
    if targets == [] then PyDict(map[]) else PyDict(map["is_a" := PyList(targets)])
  }

  predicate NoComments(u: Utils, ns: NsMap, cs: seq<Element>) {
    forall i :: 0 <= i < |cs| ==> KindOf(u, ns, cs[i]) != CommentChild
  }

  /** The record the children produce when none of them is a comment. */
  function RecordWithoutComments(u: Utils, ns: NsMap, cs: seq<Element>): Record {
    map["name" := NameFromLabels(Labels(u, ns, cs)),
        "relations" := RelationsFromTargets(IsATargets(u, ns, cs)),
        "desc" := PyStr("")]
  }

  /** One more child that is not a comment extends that record. */
  lemma StepWithoutComment(u: Utils, ns: NsMap, init: seq<Element>, last: Element)
    requires KindOf(u, ns, last) != CommentChild
    ensures ApplyFirst(Translator(u, ns), RecordWithoutComments(u, ns, init), last) ==
            Ok(RecordWithoutComments(u, ns, init + [last]))
  {
    var cs := init + [last];
    assert cs[..|cs| - 1] == init && cs[|cs| - 1] == last;
    var rec := RecordWithoutComments(u, ns, init);
    var labels, targets := Labels(u, ns, init), IsATargets(u, ns, init);
    TranslatorDispatch(u, ns, rec, last);
    match KindOf(u, ns, last)
    case LabelChild =>
      assert Labels(u, ns, cs) == labels + [last];
      assert IsATargets(u, ns, cs) == targets;
      LabelStep(rec, labels, targets, last);
    case SubClassChild =>
      assert Labels(u, ns, cs) == labels;
      assert IsATargets(u, ns, cs) == targets + [Accession(u, ns, last)];
      AppendTarget(rec, targets, Accession(u, ns, last));
      assert rec["relations" := RelationsFromTargets(targets + [Accession(u, ns, last)])] ==
             RecordWithoutComments(u, ns, cs);
    case OtherChild =>
      assert Labels(u, ns, cs) == labels;
      assert IsATargets(u, ns, cs) == targets;
  }

  lemma LabelStep(rec: Record, labels: seq<Element>, targets: seq<PyValue>, last: Element)
    requires rec == map["name" := NameFromLabels(labels), "relations" := RelationsFromTargets(targets), "desc" := PyStr("")]
    ensures rec["name" := FromOptional(last.text)] ==
            map["name" := NameFromLabels(labels + [last]), "relations" := RelationsFromTargets(targets), "desc" := PyStr("")]
  {
    assert (labels + [last])[|labels + [last]| - 1] == last;
  }

  /** The `list` action on a record whose relations hold `targets`. */
  lemma AppendTarget(rec: Record, targets: seq<PyValue>, v: PyValue)
    requires "relations" in rec && rec["relations"] == RelationsFromTargets(targets)
    ensures ApplyAction(Append("relations", "is_a"), v, rec) ==
            Ok(rec["relations" := RelationsFromTargets(targets + [v])])
  {
    var created := map["is_a" := PyList(targets)];
    if targets == [] {
      assert !Truthy(rec["relations"]);
      assert SetItem(rec["relations"], "is_a", PyList([])) == Ok(PyDict(created)) by {
        assert map[]["is_a" := PyList([])] == created;
      }
    } else {
      assert "is_a" in created;
      assert Truthy(rec["relations"]) && rec["relations"] == PyDict(created);
    }
    assert AppendItem(PyDict(created), "is_a", v) == Ok(PyDict(map["is_a" := PyList(targets + [v])])) by {
      assert created["is_a" := PyList(targets + [v])] == map["is_a" := PyList(targets + [v])];
    }
  }

  /** Without comment children the fold never raises: `name` is the text
      of the last label child (or `''`), `relations` holds the is_a
      targets in document order (created on the first one), and `desc`
      stays `''`. */
  lemma {:induction false} FoldWithoutComments(u: Utils, ns: NsMap, cs: seq<Element>)
    requires NoComments(u, ns, cs)
    ensures FoldChildren(Translator(u, ns), InitialRecord(), cs) == Ok(RecordWithoutComments(u, ns, cs))
    decreases |cs|
  {
    if cs == [] {
      assert RecordWithoutComments(u, ns, cs) == InitialRecord();
    } else {
      var init, last := cs[..|cs| - 1], cs[|cs| - 1];
      assert NoComments(u, ns, init) by {
        forall i | 0 <= i < |init| ensures KindOf(u, ns, init[i]) != CommentChild {
          assert init[i] == cs[i];
        }
      }
      FoldWithoutComments(u, ns, init);
      assert KindOf(u, ns, last) != CommentChild;
      StepWithoutComment(u, ns, init, last);
      assert init + [last] == cs;
    }
  }

  /** An element without comment children is classified under the
      accession of its `rdf:about`, with the record of FoldWithoutComments. */
  lemma ClassifyWithoutComments(u: Utils, ns: NsMap, term: Element)
    requires term.attrib != map[]
    requires NoComments(u, ns, term.children)
    ensures ClassifyElement(u, ns, term) ==
      Ok(Classified(
        u.formatAccession(Get(term, u.explicitNamespace("rdf:about", ns)), ns),
        map["name" := NameFromLabels(Labels(u, ns, term.children)),
            "relations" := RelationsFromTargets(IsATargets(u, ns, term.children)),
            "desc" := PyStr("")]))
  {
    FoldWithoutComments(u, ns, term.children);
  }

  /** Every comment child's parsed metadata leaves `name` and `relations`
      alone (it may still set `desc` or add keys of its own). */
  predicate QuietComments(u: Utils, ns: NsMap, cs: seq<Element>) {
    forall i :: 0 <= i < |cs| && KindOf(u, ns, cs[i]) == CommentChild ==>
      "name" !in u.parseComment(cs[i].text) && "relations" !in u.parseComment(cs[i].text)
  }

  /** The record holds the `name` and `relations` the children `cs` give. */
  predicate NameAndIsA(u: Utils, ns: NsMap, cs: seq<Element>, rec: Record) {
    && "name" in rec && rec["name"] == NameFromLabels(Labels(u, ns, cs))
    && "relations" in rec && rec["relations"] == RelationsFromTargets(IsATargets(u, ns, cs))
  }

  /** The label and is_a filters over one more child. */
  lemma SnocFilters(u: Utils, ns: NsMap, init: seq<Element>, last: Element)
    ensures Labels(u, ns, init + [last]) ==
              Labels(u, ns, init) + if KindOf(u, ns, last) == LabelChild then [last] else []
    ensures IsATargets(u, ns, init + [last]) ==
              IsATargets(u, ns, init) + if KindOf(u, ns, last) == SubClassChild then [Accession(u, ns, last)] else []
  {
    var cs := init + [last];
    assert cs[..|cs| - 1] == init && cs[|cs| - 1] == last;
  }

  /** One more child, a comment only if it leaves `name` and `relations`
      alone, keeps `name` and `relations` as the children give them. */
  lemma StepQuiet(u: Utils, ns: NsMap, init: seq<Element>, last: Element, rec: Record)
    requires NameAndIsA(u, ns, init, rec)
    requires KindOf(u, ns, last) == CommentChild ==>
               "name" !in u.parseComment(last.text) && "relations" !in u.parseComment(last.text)
    ensures ApplyFirst(Translator(u, ns), rec, last).Ok?
    ensures NameAndIsA(u, ns, init + [last], ApplyFirst(Translator(u, ns), rec, last).value)
  {
    var labels, targets := Labels(u, ns, init), IsATargets(u, ns, init);
    SnocFilters(u, ns, init, last);
    TranslatorDispatch(u, ns, rec, last);
    var kind := KindOf(u, ns, last);
    if kind == LabelChild {
      var after := rec["name" := FromOptional(last.text)];
      assert ApplyFirst(Translator(u, ns), rec, last) == Ok(after);
      assert (labels + [last])[|labels + [last]| - 1] == last;
      assert IsATargets(u, ns, init + [last]) == targets + [] == targets;
      assert after["relations"] == rec["relations"];
    } else if kind == SubClassChild {
      AppendTarget(rec, targets, Accession(u, ns, last));
      var after := rec["relations" := RelationsFromTargets(targets + [Accession(u, ns, last)])];
      assert ApplyFirst(Translator(u, ns), rec, last) == Ok(after);
      assert Labels(u, ns, init + [last]) == labels + [] == labels;
      assert after["name"] == rec["name"];
    } else {
      assert Labels(u, ns, init + [last]) == labels + [] == labels;
      assert IsATargets(u, ns, init + [last]) == targets + [] == targets;
      if kind == CommentChild {
        var meta := u.parseComment(last.text);
        assert ApplyFirst(Translator(u, ns), rec, last) == Ok(rec + meta);
        assert (rec + meta)["name"] == rec["name"] && (rec + meta)["relations"] == rec["relations"];
      } else {
        assert ApplyFirst(Translator(u, ns), rec, last) == Ok(rec);
      }
    }
  }

  /** When no comment child's metadata sets `name` or `relations`, the fold
      never raises: `name` is the text of the last label child (or `''`),
      and `relations` holds the is_a targets in document order, created on
      the first one, whatever else the comments add. */
  lemma {:induction false} FoldWithQuietComments(u: Utils, ns: NsMap, cs: seq<Element>)
    requires QuietComments(u, ns, cs)
    ensures FoldChildren(Translator(u, ns), InitialRecord(), cs).Ok?
    ensures NameAndIsA(u, ns, cs, FoldChildren(Translator(u, ns), InitialRecord(), cs).value)
    decreases |cs|
  {
    if cs != [] {
      var init, last := cs[..|cs| - 1], cs[|cs| - 1];
      assert QuietComments(u, ns, init) by {
        forall i | 0 <= i < |init| && KindOf(u, ns, init[i]) == CommentChild
          ensures "name" !in u.parseComment(init[i].text) && "relations" !in u.parseComment(init[i].text)
        {
          assert init[i] == cs[i];
        }
      }
      FoldWithQuietComments(u, ns, init);
      StepQuiet(u, ns, init, last, FoldChildren(Translator(u, ns), InitialRecord(), init).value);
      assert init + [last] == cs;
    }
  }

  /** An element with attributes whose comments leave `name` and
      `relations` alone is classified under its `rdf:about` accession, with
      the `name` and `is_a` targets its children give. */
  lemma ClassifyWithQuietComments(u: Utils, ns: NsMap, term: Element)
    requires term.attrib != map[]
    requires QuietComments(u, ns, term.children)
    ensures ClassifyElement(u, ns, term).Ok? && ClassifyElement(u, ns, term).value.Classified?
    ensures var c := ClassifyElement(u, ns, term).value;
            && c.id == u.formatAccession(Get(term, u.explicitNamespace("rdf:about", ns)), ns)
            && NameAndIsA(u, ns, term.children, c.record)
  {
    FoldWithQuietComments(u, ns, term.children);
  }

  /** Folding a concatenation folds the second part from where the first
      ended, unless the first raised. */
  lemma {:induction false} FoldConcat(rules: seq<Rule>, rec: Record, cs1: seq<Element>, cs2: seq<Element>)
    ensures FoldChildren(rules, rec, cs1 + cs2) ==
      match FoldChildren(rules, rec, cs1)
      case Err(e) => Err(e)
      case Ok(r) => FoldChildren(rules, r, cs2)
    decreases |cs2|
  {
    if cs2 == [] {
      assert cs1 + cs2 == cs1;
    } else {
      var cs := cs1 + cs2;
      assert cs[..|cs| - 1] == cs1 + cs2[..|cs2| - 1];
      assert cs[|cs| - 1] == cs2[|cs2| - 1];
      FoldConcat(rules, rec, cs1, cs2[..|cs2| - 1]);
    }
  }

  /** Once the fold raises, the remaining children are never looked at. */
  lemma FoldErrorSticks(rules: seq<Rule>, rec: Record, cs: seq<Element>, k: nat)
    requires k <= |cs|
    requires FoldChildren(rules, rec, cs[..k]).Err?
    ensures FoldChildren(rules, rec, cs) == FoldChildren(rules, rec, cs[..k])
  {
    assert cs == cs[..k] + cs[k..];
    FoldConcat(rules, rec, cs[..k], cs[k..]);
  }

  /** A comment child merges the keys of its parsed metadata into the
      record at top level: they overwrite `name`, `desc` or `relations`
      set by earlier children, and every other key is kept. */
  lemma CommentMergesTopLevel(u: Utils, ns: NsMap, rec: Record, cs: seq<Element>, c: Element)
    requires KindOf(u, ns, c) == CommentChild
    requires FoldChildren(Translator(u, ns), rec, cs).Ok?
    ensures var before := FoldChildren(Translator(u, ns), rec, cs).value;
            var meta := u.parseComment(c.text);
            var after := FoldChildren(Translator(u, ns), rec, cs + [c]);
            && after.Ok?
            && after.value.Keys == before.Keys + meta.Keys
            && (forall k :: k in meta ==> after.value[k] == meta[k])
            && (forall k :: k in before && k !in meta ==> after.value[k] == before[k])
  {
    var t := Translator(u, ns);
    FoldConcat(t, rec, cs, [c]);
    assert FoldChildren(t, FoldChildren(t, rec, cs).value, [c]) ==
           ApplyFirst(t, FoldChildren(t, rec, cs).value, c) by {
      assert [c][..0] == [];
    }
    TranslatorDispatch(u, ns, FoldChildren(t, rec, cs).value, c);
  }
}
