/** How the parser turns the workers' `(tid, record)` pairs into terms. */
module Aggregation {
  import opened Python
  import opened Classification

  /** A relationship type, built from its name. */
  datatype Relationship = Relationship(name: string)

  /** A term built as `Term(tid, **d)` once `d['relations']` has been
      rebuilt: its relations, and the other keyword arguments. */
  datatype Term = Term(id: PyValue, relations: map<Relationship, PyValue>, others: map<string, PyValue>)

  /** The term built from one drained pair. Its relations are keyed by
      `Relationship(k)` for every top-level key `k` of the record, with
      that key's value, whatever the record's own `relations` held. */
  function MakeTerm(tid: PyValue, d: Record): (t: Term)
    ensures t.id == tid
    ensures forall k :: k in d <==> Relationship(k) in t.relations
    ensures forall k :: k in d ==> t.relations[Relationship(k)] == d[k]
    ensures forall k :: k in t.others <==> k in d && k != "relations"
    ensures forall k :: k in t.others ==> t.others[k] == d[k]
  {
    Term(tid, map k | k in d :: Relationship(k) := d[k], d - {"relations"})
  }

  /** The term map after the pending pairs are drained into it in order. */
  function Aggregate(terms: map<PyValue, Term>, pending: seq<(PyValue, Record)>): map<PyValue, Term>
    decreases |pending|
  {
    if pending == [] then terms
    else Aggregate(terms[pending[0].0 := MakeTerm(pending[0].0, pending[0].1)], pending[1..])
  }

  /** An id is in the aggregated map exactly when it was already there or
      some pending pair carries it. */
  lemma {:induction false} AggregateKeys(terms: map<PyValue, Term>, pending: seq<(PyValue, Record)>)
    ensures Aggregate(terms, pending).Keys == terms.Keys + set p | p in pending :: p.0
    decreases |pending|
  {
    if pending != [] {
      var rest := pending[1..];
      AggregateKeys(terms[pending[0].0 := MakeTerm(pending[0].0, pending[0].1)], rest);
      assert pending == [pending[0]] + rest;
      assert (set p | p in pending :: p.0) == {pending[0].0} + set p | p in rest :: p.0;
    }
  }

  /** Last write wins: an id drained several times holds the term of its
      last pair. */
  lemma {:induction false} AggregateLastWriteWins(terms: map<PyValue, Term>, pending: seq<(PyValue, Record)>, i: nat)
    requires i < |pending|
    requires forall j :: i < j < |pending| ==> pending[j].0 != pending[i].0
    ensures pending[i].0 in Aggregate(terms, pending)
    ensures Aggregate(terms, pending)[pending[i].0] == MakeTerm(pending[i].0, pending[i].1)
    decreases |pending|
  {
    var next := terms[pending[0].0 := MakeTerm(pending[0].0, pending[0].1)];
    var rest := pending[1..];
    if i == 0 {
      forall j | 0 <= j < |rest| ensures rest[j].0 != pending[0].0 {
        assert rest[j] == pending[j + 1];
      }
      AggregateUntouched(next, rest, pending[0].0);
    } else {
      forall j | i - 1 < j < |rest| ensures rest[j].0 != rest[i - 1].0 {
        assert rest[j] == pending[j + 1];
      }
      AggregateLastWriteWins(next, rest, i - 1);
    }
  }

  /** An id no pending pair carries keeps its term. */
  lemma {:induction false} AggregateUntouched(terms: map<PyValue, Term>, pending: seq<(PyValue, Record)>, tid: PyValue)
    requires tid in terms
    requires forall j :: 0 <= j < |pending| ==> pending[j].0 != tid
    ensures tid in Aggregate(terms, pending) && Aggregate(terms, pending)[tid] == terms[tid]
    decreases |pending|
  {
    if pending != [] {
      var rest := pending[1..];
      forall j | 0 <= j < |rest| ensures rest[j].0 != tid {
        assert rest[j] == pending[j + 1];
      }
      AggregateUntouched(terms[pending[0].0 := MakeTerm(pending[0].0, pending[0].1)], rest, tid);
    }
  }

  /** The record a classified element without comment children yields
      becomes a term whose relations are keyed by `name`, `relations` and
      `desc`: the is_a targets sit under `Relationship("relations")`, and
      there is no `Relationship("is_a")`. */
  lemma RelationsFromTopLevelKeys(u: Xml.Utils, ns: Xml.NsMap, term: Xml.Element)
    requires term.attrib != map[]
    requires NoComments(u, ns, term.children)
    ensures ClassifyElement(u, ns, term).Ok? && ClassifyElement(u, ns, term).value.Classified?
    ensures var c := ClassifyElement(u, ns, term).value;
            var t := MakeTerm(c.id, c.record);
            && t.relations.Keys == {Relationship("name"), Relationship("relations"), Relationship("desc")}
            && t.relations[Relationship("relations")] == RelationsFromTargets(IsATargets(u, ns, term.children))
            && Relationship("is_a") !in t.relations
  {
    ClassifyWithoutComments(u, ns, term);
    var c := ClassifyElement(u, ns, term).value;
    var t := MakeTerm(c.id, c.record);
    assert c.record.Keys == {"name", "relations", "desc"};
    forall r | r in t.relations ensures r in {Relationship("name"), Relationship("relations"), Relationship("desc")} {
      assert r.name in c.record;
    }
  }
}
