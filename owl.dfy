/** The OWL/XML parser: the format hook, the streaming scan of the
    document, and the aggregation of the workers' results into terms. */
module Owl {
  import opened Python
  import opened Xml
  import opened Classification
  import opened Scanning
  import opened Aggregation
  import opened PathExt

  /** A path names an OWL/XML file when it ends in `.owl`, `.xml` or
      `.ont` after a file name that is not all dots. */
  predicate IsOwlPath(p: string) {
    EndsInExtension(p, ".owl") || EndsInExtension(p, ".xml") || EndsInExtension(p, ".ont")
  }

  class OwlXmlParser {
    /** The namespace table the scan builds. */
    var ns: NsMap
    /** The `owl:imports` targets, in document order. */
    var imports: seq<string>
    /** The work queue of class elements for the workers. */
    var rawterms: seq<Element>
    /** The results queue the workers fill with `(tid, record)` pairs. */
    var pending: seq<(PyValue, Record)>
    /** The terms, by id. */
    var terms: map<PyValue, Term>
    const utils: Utils
    const extensions: seq<string> := [".owl", ".xml", ".ont"]

    constructor (utils: Utils)
      ensures ns == map[] && imports == [] && rawterms == [] && pending == [] && terms == map[]
      ensures this.utils == utils
    {
      ns := map[];
      imports := [];
      rawterms := [];
      pending := [];
      terms := map[];
      this.utils := utils;
    }

    /** The format hook: `None` without a path, otherwise whether the
        path's extension is one of the parser's extensions. */
    function Hook(path: Option<string>): (r: Option<bool>)
      ensures r.None? <==> path.None?
      ensures r == Some(true) <==> path.Some? && IsOwlPath(path.value)
    {
      match path
      case None => None
      case Some(p) =>
        SplitExtYields(p, ".owl");
        SplitExtYields(p, ".xml");
        SplitExtYields(p, ".ont");
        Some(SplitExt(p).1 in extensions)
    }

    /** The scan loop on the parser's state: bind each declared
        namespace, record each `owl:imports` target, queue each `owl:Class`
        element, and stop at the first event without element. */
    method ScanEvents(s0: ScanState, events: seq<Event>) returns (s: ScanState)
      requires s0.status == Scanning
      ensures s == Scan(utils, s0, events)
    {
      var ns, imports, rawterms := s0.ns, s0.imports, s0.rawterms;
      var i := 0;
      while i < |events|
        invariant 0 <= i <= |events|
        invariant Scan(utils, s0, events[..i]) == ScanState(ns, imports, rawterms, Scanning)
      {
        var event := events[i];
        assert events[..i + 1][..i] == events[..i];
        match event {
          case NoElement =>
            ScanSettles(utils, s0, events, i + 1);
            return ScanState(ns, imports, rawterms, Halted);
          case StartNs(prefix, uri) =>
            ns := ns[prefix := uri];
          case Start(_) =>
          case End(element) =>
            if element.tag == utils.explicitNamespace("owl:imports", ns) {
              var key := utils.explicitNamespace("rdf:resource", ns);
              if key !in element.attrib {
                ScanSettles(utils, s0, events, i + 1);
                return ScanState(ns, imports, rawterms, Raised(KeyError(key)));
              }
              imports := imports + [element.attrib[key]];
            } else if element.tag == utils.explicitNamespace("owl:Class", ns) {
              rawterms := rawterms + [element];
            }
        }
        i := i + 1;
      }
      assert events[..i] == events;
      return ScanState(ns, imports, rawterms, Scanning);
    }

    /** `read`: one forward pass over the document's events, updating the
        namespace table, the import list and the work queue. */
    method Read(events: seq<Event>) returns (status: Status)
      modifies this`ns, this`imports, this`rawterms
      ensures var s := Scan(utils, ScanState(old(ns), old(imports), old(rawterms), Scanning), events);
              ns == s.ns && imports == s.imports && rawterms == s.rawterms && status == s.status
    {
      var s := ScanEvents(ScanState(ns, imports, rawterms, Scanning), events);
      ns, imports, rawterms, status := s.ns, s.imports, s.rawterms, s.status;
    }

    /** Drain the results queue into the term map, building each term with
        its relations keyed by the record's top-level keys. */
    method MakeTree()
      modifies this`pending, this`terms
      ensures pending == [] && terms == Aggregate(old(terms), old(pending))
    {
      while |pending| > 0
        invariant Aggregate(terms, pending) == Aggregate(old(terms), old(pending))
        decreases |pending|
      {
        var (tid, d) := pending[0];
        pending := pending[1..];
        terms := terms[tid := MakeTerm(tid, d)];
      }
    }
  }
}
