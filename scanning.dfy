/** The single forward pass over the parse events of an OWL/XML
    document: it binds namespaces, collects `owl:imports` targets and
    queues every completed `owl:Class` element for the workers. */
module Scanning {
  import opened Python
  import opened Xml

  /** One `(event, element)` pair of the parse: a namespace declaration,
      the start or the end of an element, or an event whose element is
      `None`. */
  datatype Event =
    | StartNs(prefix: string, uri: string)
    | Start(element: Element)
    | End(element: Element)
    | NoElement

  /** `Scanning` while events are being read; `Halted` after an event
      without element; `Raised` after an exception. */
  datatype Status = Scanning | Halted | Raised(error: Exception)

  /** The parser state the scan updates. */
  datatype ScanState = ScanState(ns: NsMap, imports: seq<string>, rawterms: seq<Element>, status: Status)

  predicate IsImports(u: Utils, ns: NsMap, e: Element) {
    e.tag == u.explicitNamespace("owl:imports", ns)
  }

  predicate IsClass(u: Utils, ns: NsMap, e: Element) {
    e.tag == u.explicitNamespace("owl:Class", ns)
  }

  /** One event of the scan. */
  function Step(u: Utils, s: ScanState, ev: Event): (t: ScanState)
    ensures !s.status.Scanning? ==> t == s
    ensures s.ns.Keys <= t.ns.Keys
    ensures ev.Start? ==> t == s
    ensures |s.imports| <= |t.imports| <= |s.imports| + 1 && t.imports[..|s.imports|] == s.imports
    ensures |s.rawterms| <= |t.rawterms| <= |s.rawterms| + 1 && t.rawterms[..|s.rawterms|] == s.rawterms
  {
    if !s.status.Scanning? then s
    else match ev
      case NoElement => s.(status := Halted)
      case StartNs(prefix, uri) => s.(ns := s.ns[prefix := uri])
      case Start(_) => s
      case End(e) =>
        if IsImports(u, s.ns, e) then
          var key := u.explicitNamespace("rdf:resource", s.ns);
          if key in e.attrib then s.(imports := s.imports + [e.attrib[key]])
          else s.(status := Raised(KeyError(key)))
        else if IsClass(u, s.ns, e) then s.(rawterms := s.rawterms + [e])
        else s
  }

  /** The scan of a sequence of events, from state `s`. */
  function Scan(u: Utils, s: ScanState, evs: seq<Event>): ScanState
    decreases |evs|
  {
    if evs == [] then s else Step(u, Scan(u, s, evs[..|evs| - 1]), evs[|evs| - 1])
  }

  /** Once the scan has halted or raised, later events change nothing. */
  lemma {:induction false} ScanSettles(u: Utils, s: ScanState, evs: seq<Event>, k: nat)
    requires k <= |evs|
    requires !Scan(u, s, evs[..k]).status.Scanning?
    ensures Scan(u, s, evs) == Scan(u, s, evs[..k])
    decreases |evs| - k
  {
    if k < |evs| {
      assert evs[..k + 1][..k] == evs[..k];
      ScanSettles(u, s, evs, k + 1);
      if k + 1 == |evs| {
        assert evs[..k + 1] == evs;
      }
    } else {
      assert evs[..k] == evs;
    }
  }

  /** An event without element ends the scan where it stands. */
  lemma NoElementHalts(u: Utils, s: ScanState, evs: seq<Event>, k: nat)
    requires k < |evs| && evs[k] == NoElement
    requires Scan(u, s, evs[..k]).status == Scanning
    ensures Scan(u, s, evs) == Scan(u, s, evs[..k]).(status := Halted)
  {
    assert evs[..k + 1][..k] == evs[..k];
    ScanSettles(u, s, evs, k + 1);
  }

  // ---------------------------------------------------------------------
  // Each part of the state on its own

  /** The namespace table after the declarations among `evs`. */
  function BindAll(ns: NsMap, evs: seq<Event>): NsMap
    decreases |evs|
  {
    if evs == [] then ns
    else
      var before := BindAll(ns, evs[..|evs| - 1]);
      match evs[|evs| - 1]
      case StartNs(prefix, uri) => before[prefix := uri]
      case _ => before
  }

  /** The import targets of `evs`: the `rdf:resource` of each end of an
      `owl:imports` element, under the bindings declared before it. */
  function ImportsOf(u: Utils, ns: NsMap, evs: seq<Event>): seq<string>
    decreases |evs|
  {
    if evs == [] then []
    else
      var init := evs[..|evs| - 1];
      var bound := BindAll(ns, init);
      ImportsOf(u, ns, init) +
        match evs[|evs| - 1]
        case End(e) =>
          var key := u.explicitNamespace("rdf:resource", bound);
          if IsImports(u, bound, e) && key in e.attrib then [e.attrib[key]] else []
        case _ => []
  }

  /** The class elements of `evs`: each end of an `owl:Class` element. */
  function ClassesOf(u: Utils, ns: NsMap, evs: seq<Event>): seq<Element>
    decreases |evs|
  {
    if evs == [] then []
    else
      var init := evs[..|evs| - 1];
      var bound := BindAll(ns, init);
      ClassesOf(u, ns, init) +
        match evs[|evs| - 1]
        case End(e) => if !IsImports(u, bound, e) && IsClass(u, bound, e) then [e] else []
        case _ => []
  }

  /** A scan that reads every event keeps its three outputs apart: the
      namespace table is the declarations applied in order, and imports and
      the class queue grow by exactly one entry per end of an `owl:imports`
      or `owl:Class` element, in document order. */
  lemma {:induction false} ScanDecomposes(u: Utils, s: ScanState, evs: seq<Event>)
    requires s.status == Scanning
    requires Scan(u, s, evs).status == Scanning
    ensures Scan(u, s, evs) ==
            ScanState(BindAll(s.ns, evs), s.imports + ImportsOf(u, s.ns, evs), s.rawterms + ClassesOf(u, s.ns, evs), Scanning)
    decreases |evs|
  {
    if evs != [] {
      var init := evs[..|evs| - 1];
      ScanDecomposes(u, s, init);
      match evs[|evs| - 1]
      case StartNs(_, _) =>
      case Start(_) =>
      case NoElement =>
      case End(e) =>
        assert s.imports + ImportsOf(u, s.ns, init) + ImportsOf(u, s.ns, evs)[|ImportsOf(u, s.ns, init)|..] ==
               s.imports + ImportsOf(u, s.ns, evs);
        assert s.rawterms + ClassesOf(u, s.ns, init) + ClassesOf(u, s.ns, evs)[|ClassesOf(u, s.ns, init)|..] ==
               s.rawterms + ClassesOf(u, s.ns, evs);
    }
  }

  /** A prefix keeps the last URI the events bind to it... */
  lemma {:induction false} LastBindingWins(ns: NsMap, evs: seq<Event>, k: nat)
    requires k < |evs| && evs[k].StartNs?
    requires forall j :: k < j < |evs| ==> !(evs[j].StartNs? && evs[j].prefix == evs[k].prefix)
    ensures evs[k].prefix in BindAll(ns, evs) && BindAll(ns, evs)[evs[k].prefix] == evs[k].uri
    decreases |evs|
  {
    if k < |evs| - 1 {
      var init := evs[..|evs| - 1];
      assert init[k] == evs[k];
      forall j | k < j < |init| ensures !(init[j].StartNs? && init[j].prefix == init[k].prefix) {
        assert init[j] == evs[j];
      }
      LastBindingWins(ns, init, k);
    }
  }

  /** ...and its old binding, or none, when the events do not bind it:
      a binding is never removed. */
  lemma {:induction false} UnboundPrefixKept(ns: NsMap, evs: seq<Event>, prefix: string)
    requires forall k :: 0 <= k < |evs| ==> !(evs[k].StartNs? && evs[k].prefix == prefix)
    ensures prefix in BindAll(ns, evs) <==> prefix in ns
    ensures prefix in ns ==> BindAll(ns, evs)[prefix] == ns[prefix]
    decreases |evs|
  {
    if evs != [] {
      var init := evs[..|evs| - 1];
      forall k | 0 <= k < |init| ensures !(init[k].StartNs? && init[k].prefix == prefix) {
        assert init[k] == evs[k];
      }
      UnboundPrefixKept(ns, init, prefix);
      assert !(evs[|evs| - 1].StartNs? && evs[|evs| - 1].prefix == prefix);
    }
  }

  /** The events with every start event dropped. */
  function WithoutStarts(evs: seq<Event>): seq<Event>
    decreases |evs|
  {
    if evs == [] then []
    else WithoutStarts(evs[..|evs| - 1]) + if evs[|evs| - 1].Start? then [] else [evs[|evs| - 1]]
  }

  /** Start events change nothing: dropping them all leaves the scan as it is. */
  lemma {:induction false} StartEventsInert(u: Utils, s: ScanState, evs: seq<Event>)
    ensures Scan(u, s, WithoutStarts(evs)) == Scan(u, s, evs)
    decreases |evs|
  {
    if evs != [] {
      var init, last := evs[..|evs| - 1], evs[|evs| - 1];
      StartEventsInert(u, s, init);
      assert evs[..|evs| - 1] == init;
      if !last.Start? {
        var w := WithoutStarts(init) + [last];
        assert WithoutStarts(evs) == w;
        assert w[..|w| - 1] == WithoutStarts(init) && w[|w| - 1] == last;
        assert Scan(u, s, w) == Step(u, Scan(u, s, WithoutStarts(init)), last);
      } else {
        assert WithoutStarts(evs) == WithoutStarts(init) + [];
        assert WithoutStarts(init) + [] == WithoutStarts(init);
      }
    }
  }
}
