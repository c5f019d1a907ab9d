/** A classifier worker: it drains the work queue of class elements,
    classifies each one, and publishes the non-empty results. */
module Worker {
  import opened Python
  import opened Xml
  import opened Classification

  /** The namespace table every worker uses, whatever it is given. */
  const WorkerNamespaces: NsMap :=
    map["rdf" := "http://www.w3.org/1999/02/22-rdf-syntax-ns#",
        "rdfs" := "http://www.w3.org/2000/01/rdf-schema#"]

  /** How a worker's drain loop ends: on the `None` sentinel, on an
      exception from the classifier, or (in this finite model) on a queue
      that runs dry, where the source would block waiting for more. */
  datatype Stop = Sentinel | Raised(error: Exception) | Starved

  /** What draining a queue does: how many items it takes off, the
      `(tid, record)` pairs it publishes, and how it ends. */
  datatype Drained = Drained(consumed: nat, published: seq<(PyValue, Record)>, stop: Stop)

  /** The drain loop as a function of the queue's contents. */
  function Drain(u: Utils, ns: NsMap, items: seq<Option<Element>>): (d: Drained)
    ensures d.consumed <= |items|
    ensures |d.published| <= d.consumed
    ensures d.stop == Starved ==> d.consumed == |items|
    decreases |items|
  {
    if items == [] then Drained(0, [], Starved)
    else if items[0].None? then Drained(1, [], Sentinel)
    else match ClassifyElement(u, ns, items[0].value)
      case Err(x) => Drained(1, [], Raised(x))
      case Ok(Empty) =>
        var rest := Drain(u, ns, items[1..]);
        Drained(rest.consumed + 1, rest.published, rest.stop)
      case Ok(Classified(tid, rec)) =>
        var rest := Drain(u, ns, items[1..]);
        Drained(rest.consumed + 1, [(tid, rec)] + rest.published, rest.stop)
  }

  /** The drain stops at the first sentinel or the first element whose
      classification raises, and runs the queue dry only when it meets
      neither: every item taken before the last is an element that
      classifies without exception, and the last one taken is the reason
      the loop ended. */
  lemma {:induction false} DrainStopsAtFirst(u: Utils, ns: NsMap, items: seq<Option<Element>>)
    ensures var d := Drain(u, ns, items);
            forall i :: 0 <= i < d.consumed - 1 ==> items[i].Some? && ClassifyElement(u, ns, items[i].value).Ok?
    ensures var d := Drain(u, ns, items);
            d.stop == Sentinel ==> d.consumed >= 1 && items[d.consumed - 1].None?
    ensures var d := Drain(u, ns, items);
            d.stop == Starved ==> forall i :: 0 <= i < |items| ==> items[i].Some? && ClassifyElement(u, ns, items[i].value).Ok?
    ensures var d := Drain(u, ns, items);
            d.stop.Raised? ==> && d.consumed >= 1 && items[d.consumed - 1].Some?
                               && ClassifyElement(u, ns, items[d.consumed - 1].value) == Err(d.stop.error)
    decreases |items|
  {
    if items != [] && items[0].Some? && ClassifyElement(u, ns, items[0].value).Ok? {
      var rest := items[1..];
      DrainStopsAtFirst(u, ns, rest);
      DrainClassified(u, ns, items);
      var d, dr := Drain(u, ns, items), Drain(u, ns, rest);
      assert d.consumed == dr.consumed + 1 && d.stop == dr.stop;
      forall i | 1 <= i < |items| ensures items[i] == rest[i - 1] { }
    }
  }

  /** A drain that first took `consumed` items and published `published`,
      then went on as `d`. */
  function Resumed(consumed: nat, published: seq<(PyValue, Record)>, d: Drained): Drained {
    Drained(consumed + d.consumed, published + d.published, d.stop)
  }

  lemma ResumedTwice(n1: nat, p1: seq<(PyValue, Record)>, n2: nat, p2: seq<(PyValue, Record)>, d: Drained)
    ensures Resumed(n1, p1, Resumed(n2, p2, d)) == Resumed(n1 + n2, p1 + p2, d)
  {
    assert p1 + (p2 + d.published) == p1 + p2 + d.published;
  }

  /** The pairs classifying `es` yields, in order, dropping the empty
      classifications. */
  function Records(u: Utils, ns: NsMap, es: seq<Element>): seq<(PyValue, Record)>
    decreases |es|
  {
    if es == [] then []
    else
      var first := ClassifyElement(u, ns, es[0]);
      (if first.Ok? && first.value.Classified? then [(first.value.id, first.value.record)] else [])
      + Records(u, ns, es[1..])
  }

  /** Elements as they travel on the queue. */
  function Queued(es: seq<Element>): (q: seq<Option<Element>>)
    ensures |q| == |es| && forall i :: 0 <= i < |es| ==> q[i] == Some(es[i])
  {
    seq(|es|, i requires 0 <= i < |es| => Some(es[i]))
  }

  /** A queue of elements none of which raises, followed by the sentinel:
      the worker takes everything up to and including the sentinel, never
      looks past it, and publishes exactly the non-empty classifications
      in queue order. */
  lemma {:induction false} DrainUpToSentinel(u: Utils, ns: NsMap, es: seq<Element>, rest: seq<Option<Element>>)
    requires forall i :: 0 <= i < |es| ==> ClassifyElement(u, ns, es[i]).Ok?
    ensures Drain(u, ns, Queued(es) + [None] + rest) == Drained(|es| + 1, Records(u, ns, es), Sentinel)
    decreases |es|
  {
    var items := Queued(es) + [None] + rest;
    if es == [] {
      assert items[0] == None;
    } else {
      assert items[0] == Some(es[0]);
      assert items[1..] == Queued(es[1..]) + [None] + rest;
      DrainUpToSentinel(u, ns, es[1..], rest);
    }
  }

  /** One element that classifies without exception: the worker takes it,
      publishes its pair when the classification is not empty, and goes on
      with the rest of the queue. */
  lemma DrainClassified(u: Utils, ns: NsMap, items: seq<Option<Element>>)
    requires items != [] && items[0].Some? && ClassifyElement(u, ns, items[0].value).Ok?
    ensures var c := ClassifyElement(u, ns, items[0].value).value;
            var rest := Drain(u, ns, items[1..]);
            Drain(u, ns, items) ==
              Drained(rest.consumed + 1, (if c.Classified? then [(c.id, c.record)] else []) + rest.published, rest.stop)
  {
    var c := ClassifyElement(u, ns, items[0].value).value;
    if c.Empty? {
      assert [] + Drain(u, ns, items[1..]).published == Drain(u, ns, items[1..]).published;
    }
  }

  /** Every published pair is the classification of a queued element that
      has attributes. */
  lemma {:induction false} RecordsComeFromClassifiedElements(u: Utils, ns: NsMap, es: seq<Element>)
    ensures forall p :: p in Records(u, ns, es) ==>
              exists e :: e in es && e.attrib != map[] && ClassifyElement(u, ns, e) == Ok(Classified(p.0, p.1))
    decreases |es|
  {
    if es != [] {
      RecordsComeFromClassifiedElements(u, ns, es[1..]);
      forall p | p in Records(u, ns, es)
        ensures exists e :: e in es && e.attrib != map[] && ClassifyElement(u, ns, e) == Ok(Classified(p.0, p.1))
      {
        if p !in Records(u, ns, es[1..]) {
          assert ClassifyElement(u, ns, es[0]) == Ok(Classified(p.0, p.1));
        } else {
          var e :| e in es[1..] && e.attrib != map[] && ClassifyElement(u, ns, e) == Ok(Classified(p.0, p.1));
          assert e in es;
        }
      }
    }
  }

  /** A worker process, with the two queues it shares with the parser. */
  class OwlXmlClassifier {
    var queue: seq<Option<Element>>
    var results: seq<(PyValue, Record)>
    const nsmap: NsMap
    const utils: Utils

    /** The namespace table handed in is ignored: the worker always uses
        WorkerNamespaces. */
    constructor (queue: seq<Option<Element>>, results: seq<(PyValue, Record)>, nsmap: NsMap, utils: Utils)
      ensures this.queue == queue && this.results == results
      ensures this.nsmap == WorkerNamespaces && this.utils == utils
    {
      this.queue := queue;
      this.results := results;
      this.nsmap := WorkerNamespaces;
      this.utils := utils;
    }

    /** One class element classified by walking its children and, for each
        child, the translator table until the first rule whose hook holds. */
    method Classify(term: Element) returns (r: Result<Classification, Exception>)
      ensures r == ClassifyElement(utils, nsmap, term)
    {
      if term.attrib == map[] {
        return Ok(Empty);
      }
      var tid := utils.formatAccession(Get(term, utils.explicitNamespace("rdf:about", nsmap)), nsmap);
      var rec := InitialRecord();
      var translator := Translator(utils, nsmap);
      var children := term.children;
      var i := 0;
      while i < |children|
        invariant 0 <= i <= |children|
        invariant FoldChildren(translator, InitialRecord(), children[..i]) == Ok(rec)
      {
        var child := children[i];
        var outcome := ApplyTranslator(translator, child, rec);
        assert children[..i + 1][..i] == children[..i];
        if outcome.Err? {
          FoldErrorSticks(translator, InitialRecord(), children, i + 1);
          return Err(outcome.error);
        }
        rec := outcome.value;
        i := i + 1;
      }
      assert children[..i] == term.children;
      return Ok(Classified(tid, rec));
    }

    /** The rules tried in order on one child: the first whose hook holds
        updates the record, and the walk stops there. */
    static method ApplyTranslator(translator: seq<Rule>, child: Element, rec: Record) returns (outcome: Result<Record, Exception>)
      ensures outcome == ApplyFirst(translator, rec, child)
    {
      var j := 0;
      while j < |translator|
        invariant 0 <= j <= |translator|
        invariant forall k :: 0 <= k < j ==> !translator[k].hook(child)
      {
        var rule := translator[j];
        if rule.hook(child) {
          assert FirstMatchFrom(translator, child, 0) == Some(j);
          outcome := ApplyRule(rule, child, rec);
          return;
        }
        j := j + 1;
      }
      return Ok(rec);
    }

    /** One rule applied to `rec`, as the dictionary updates the source
        makes in place. */
    static method ApplyRule(rule: Rule, child: Element, rec: Record) returns (r: Result<Record, Exception>)
      ensures r == ApplyAction(rule.action, rule.callback(child), rec)
    {
      var updated := rec;
      match rule.action {
        case Store(dest) =>
          updated := updated[dest := rule.callback(child)];
        case Append(dest, listTo) =>
          if dest !in updated {
            return Err(KeyError(dest));
          }
          var container := updated[dest];
          if !Truthy(container) {
            container :- SetItem(container, listTo, PyList([]));
          }
          var appended :- AppendItem(container, listTo, rule.callback(child));
          updated := updated[dest := appended];
        case Update =>
          var value := rule.callback(child);
          if !value.PyDict? {
            return Err(TypeError);
          }
          updated := updated + value.entries;
      }
      return Ok(updated);
    }

    /** One turn of the drain loop on the queue's contents `q`: take one
        item and either stop (`Some`) or go on (`None`) with the rest of
        the queue and the pairs to publish. */
    method TakeOne(q: seq<Option<Element>>) returns (stop: Option<Stop>, rest: seq<Option<Element>>, pub: seq<(PyValue, Record)>)
      ensures var d := Drain(utils, nsmap, q);
              stop.Some? ==> stop.value == d.stop && rest == q[d.consumed..] && pub == d.published
      ensures stop.None? ==> q != [] && rest == q[1..] && Drain(utils, nsmap, q) == Resumed(1, pub, Drain(utils, nsmap, rest))
    {
      if q == [] {
        return Some(Starved), q, [];
      }
      var term := q[0];
      if term.None? {
        return Some(Sentinel), q[1..], [];
      }
      var classified := Classify(term.value);
      if classified.Err? {
        return Some(Raised(classified.error)), q[1..], [];
      }
      DrainClassified(utils, nsmap, q);
      pub := [];
      if classified.value.Classified? {
        pub := [(classified.value.id, classified.value.record)];
      }
      return None, q[1..], pub;
    }

    /** The drain loop on the queue's contents `q`: take items until the
        `None` sentinel, collecting every non-empty classification; returns
        how the loop ended, what is left on the queue and the pairs
        published, in order. */
    method DrainQueue(q: seq<Option<Element>>) returns (stop: Stop, rest: seq<Option<Element>>, published: seq<(PyValue, Record)>)
      ensures var d := Drain(utils, nsmap, q);
              rest == q[d.consumed..] && published == d.published && stop == d.stop
    {
      ghost var taken := 0;
      var left := q;
      published := [];
      while true
        invariant taken <= |q| && left == q[taken..]
        invariant Drain(utils, nsmap, q) == Resumed(taken, published, Drain(utils, nsmap, left))
        decreases |left|
      {
        var next, after, pub := TakeOne(left);
        if next.Some? {
          assert q[taken..][Drain(utils, nsmap, left).consumed..] == q[taken + Drain(utils, nsmap, left).consumed..];
          return next.value, after, published + pub;
        }
        assert q[taken..][1..] == q[taken + 1..];
        ResumedTwice(taken, published, 1, pub, Drain(utils, nsmap, after));
        taken, published := taken + 1, published + pub;
        left := after;
      }
    }

    /** `run`: drain the worker's queue, publishing to the results queue. */
    method Run() returns (stop: Stop)
      modifies this`queue, this`results
      ensures var d := Drain(utils, nsmap, old(queue));
              && queue == old(queue)[d.consumed..]
              && results == old(results) + d.published
              && stop == d.stop
    {
      var rest, published;
      stop, rest, published := DrainQueue(queue);
      queue, results := rest, results + published;
    }
  }
}
