/** Counting threads by program counter. */
module Threads {
  type Tid = nat

  function At<P(==)>(pcs: map<Tid, P>, p: P): set<Tid> {
    set t | t in pcs && pcs[t] == p
  }

  function Count<P(==)>(pcs: map<Tid, P>, p: P): nat {
    |At(pcs, p)|
  }

  /** Thread `t` moves. */
  lemma Moved<P(!new)>(pcs: map<Tid, P>, t: Tid, to: P)
    requires t in pcs && pcs[t] != to
    ensures Count(pcs[t := to], to) == Count(pcs, to) + 1
    ensures Count(pcs[t := to], pcs[t]) == Count(pcs, pcs[t]) - 1
    ensures forall p :: p != to && p != pcs[t] ==> Count(pcs[t := to], p) == Count(pcs, p)
  {
    var next := pcs[t := to];
    assert At(next, to) == At(pcs, to) + {t};
    assert At(next, pcs[t]) == At(pcs, pcs[t]) - {t};
    forall p | p != to && p != pcs[t] ensures Count(next, p) == Count(pcs, p) {
      assert At(next, p) == At(pcs, p);
    }
  }

  /** The threads in `ts` move together. */
  function MoveAll<P>(pcs: map<Tid, P>, ts: set<Tid>, to: P): (next: map<Tid, P>)
    ensures next.Keys == pcs.Keys
  {
    map t | t in pcs :: if t in ts then to else pcs[t]
  }

  lemma MovedAll<P(!new)>(pcs: map<Tid, P>, ts: set<Tid>, from: P, to: P)
    requires ts <= At(pcs, from) && from != to
    ensures Count(MoveAll(pcs, ts, to), to) == Count(pcs, to) + |ts|
    ensures Count(MoveAll(pcs, ts, to), from) == Count(pcs, from) - |ts|
    ensures forall p :: p != to && p != from ==> Count(MoveAll(pcs, ts, to), p) == Count(pcs, p)
  {
    var next := MoveAll(pcs, ts, to);
    assert At(next, to) == At(pcs, to) + ts;
    assert At(next, from) == At(pcs, from) - ts;
    forall p | p != to && p != from ensures Count(next, p) == Count(pcs, p) {
      assert At(next, p) == At(pcs, p);
    }
  }

  lemma Nobody<P(!new)>(pcs: map<Tid, P>, p: P)
    requires forall t :: t in pcs ==> pcs[t] != p
    ensures Count(pcs, p) == 0
  {
    assert At(pcs, p) == {};
  }

  lemma Somebody<P(!new)>(pcs: map<Tid, P>, t: Tid)
    requires t in pcs
    ensures Count(pcs, pcs[t]) > 0
  {
    assert t in At(pcs, pcs[t]);
  }
}
