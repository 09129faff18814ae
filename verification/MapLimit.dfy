/** The bounded-concurrency map (fleet/src/maplimit.ts): workers that share one index,
    interleaved in any order. */
module MapLimit {
  import opened Wrappers

  datatype Worker = Ready | Busy(item: nat) | Stopped

  /** `calls` are the items that `fn` was started on, in order. */
  datatype State<R> = State(next: nat, workers: seq<Worker>, results: seq<Option<R>>, calls: seq<nat>)

  /** One turn of a worker: take the next item or stop; or write back a result. */
  datatype Act = Take(w: nat) | Finish(w: nat)

  function Start<R>(n: nat, limit: int): State<R> {
    var allowed: nat := if limit > 1 then limit else 1;
    State(0, seq(if allowed < n then allowed else n, _ => Ready), seq(n, _ => None), [])
  }

  predicate Enabled<R>(s: State<R>, a: Act) {
    && a.w < |s.workers|
    && (a.Take? ==> s.workers[a.w].Ready?)
    && (a.Finish? ==> s.workers[a.w].Busy? && s.workers[a.w].item < |s.results|)
  }

  function Do<T, R>(s: State<R>, items: seq<T>, fn: T -> R, a: Act): State<R>
    requires Enabled(s, a) && |s.results| == |items|
  {
    match a
    case Take(w) =>
      if s.next >= |items| then s.(next := s.next + 1, workers := s.workers[w := Stopped])
      else s.(next := s.next + 1, workers := s.workers[w := Busy(s.next)], calls := s.calls + [s.next])
    case Finish(w) =>
      var i := s.workers[w].item;
      s.(workers := s.workers[w := Ready], results := s.results[i := Some(fn(items[i]))])
  }

  ghost predicate InFlight<R>(s: State<R>, i: nat) {
    exists w :: 0 <= w < |s.workers| && s.workers[w] == Busy(i)
  }

  function Load(w: Worker): nat {
    match w
    case Ready => 1
    case Busy(_) => 2
    case Stopped => 0
  }

  /** Steps that the workers can still take by themselves. */
  function Pending(workers: seq<Worker>): nat {
    if workers == [] then 0 else Pending(workers[..|workers| - 1]) + Load(workers[|workers| - 1])
  }

  ghost predicate Inv<T, R>(s: State<R>, items: seq<T>, fn: T -> R) {
    var begun := if s.next < |items| then s.next else |items|;
    && |s.results| == |items|
    && |s.calls| == begun && (forall k :: 0 <= k < begun ==> s.calls[k] == k)
    && (forall i :: begun <= i < |items| ==> s.results[i] == None)
    && (forall i :: 0 <= i < begun ==> s.results[i] == if InFlight(s, i) then None else Some(fn(items[i])))
    && (forall w :: 0 <= w < |s.workers| && s.workers[w].Busy? ==> s.workers[w].item < begun)
    && (forall v, w :: 0 <= v < w < |s.workers| && s.workers[v].Busy? ==> s.workers[v] != s.workers[w])
    && (forall w :: 0 <= w < |s.workers| && s.workers[w].Stopped? ==> s.next > |items|)
    && (|items| > 0 ==> |s.workers| > 0)
  }

  lemma StartIsSound<T, R>(items: seq<T>, limit: int, fn: T -> R)
    ensures Inv(Start<R>(|items|, limit), items, fn)
  {
  }

  lemma TakeKeepsInv<T, R>(s: State<R>, items: seq<T>, fn: T -> R, w: nat)
    requires Inv(s, items, fn) && Enabled(s, Take(w))
    ensures Inv(Do(s, items, fn, Take(w)), items, fn)
  {
    var t := Do(s, items, fn, Take(w));
    forall i: nat | i < s.next ensures InFlight(t, i) <==> InFlight(s, i) {
      if InFlight(s, i) {
        var v :| 0 <= v < |s.workers| && s.workers[v] == Busy(i);
        assert t.workers[v] == Busy(i);
      }
    }
    if s.next < |items| {
      assert t.workers[w] == Busy(s.next);
    }
  }

  lemma FinishKeepsInv<T, R>(s: State<R>, items: seq<T>, fn: T -> R, w: nat)
    requires Inv(s, items, fn) && Enabled(s, Finish(w))
    ensures Inv(Do(s, items, fn, Finish(w)), items, fn)
  {
    var t, done := Do(s, items, fn, Finish(w)), s.workers[w].item;
    forall i: nat ensures InFlight(t, i) <==> i != done && InFlight(s, i) {
      if i != done && InFlight(s, i) {
        var v :| 0 <= v < |s.workers| && s.workers[v] == Busy(i);
        assert t.workers[v] == Busy(i);
      }
      if InFlight(t, i) {
        var v :| 0 <= v < |t.workers| && t.workers[v] == Busy(i);
        assert s.workers[v] == Busy(i);
      }
    }
  }

  /** A run is any sequence of turns that were enabled when they came. */
  ghost predicate Run<T, R(!new)>(acts: seq<Act>, items: seq<T>, limit: int, fn: T -> R, s: State<R>)
    decreases |acts|
  {
    if acts == [] then s == Start(|items|, limit)
    else
      exists p: State<R> ::
        && Run(acts[..|acts| - 1], items, limit, fn, p)
        && |p.results| == |items| && Enabled(p, acts[|acts| - 1])
        && s == Do(p, items, fn, acts[|acts| - 1])
  }

  lemma {:induction false} RunKeepsInv<T, R(!new)>(acts: seq<Act>, items: seq<T>, limit: int, fn: T -> R, s: State<R>)
    requires Run(acts, items, limit, fn, s)
    ensures Inv(s, items, fn) && |s.workers| == |Start<R>(|items|, limit).workers|
    decreases |acts|
  {
    hide Inv;
    if acts == [] {
      StartIsSound(items, limit, fn);
    } else {
      var a := acts[|acts| - 1];
      var p: State<R> :| Run(acts[..|acts| - 1], items, limit, fn, p) && |p.results| == |items| && Enabled(p, a)
          && s == Do(p, items, fn, a);
      RunKeepsInv(acts[..|acts| - 1], items, limit, fn, p);
      if a.Take? {
        TakeKeepsInv(p, items, fn, a.w);
      } else {
        FinishKeepsInv(p, items, fn, a.w);
      }
    }
  }

  /** However the workers interleave: there are as many of them as the limit and the items
      allow; items are begun in order, each once; a result is in its item's place; and when
      all have stopped, all results are there. */
  lemma EachItemOnceInOrder<T, R(!new)>(acts: seq<Act>, items: seq<T>, limit: int, fn: T -> R, s: State<R>)
    requires Run(acts, items, limit, fn, s)
    ensures var most := if limit > 1 then limit else 1;
            |s.workers| <= most && |s.workers| <= |items| && (|s.workers| == most || |s.workers| == |items|)
    ensures |s.calls| <= |items| && forall k :: 0 <= k < |s.calls| ==> s.calls[k] == k
    ensures forall i :: 0 <= i < |items| ==> s.results[i] == None || s.results[i] == Some(fn(items[i]))
    ensures (forall w :: 0 <= w < |s.workers| ==> s.workers[w].Stopped?) ==>
              |s.calls| == |items| && forall i :: 0 <= i < |items| ==> s.results[i] == Some(fn(items[i]))
  {
    RunKeepsInv(acts, items, limit, fn, s);
    if |items| > 0 && forall w :: 0 <= w < |s.workers| ==> s.workers[w].Stopped? {
      assert s.workers[0].Stopped?;
    }
  }

  // ----- every run ends -----

  lemma {:induction false} PendingAfter(workers: seq<Worker>, w: nat, to: Worker)
    requires w < |workers|
    ensures Pending(workers[w := to]) == Pending(workers) - Load(workers[w]) + Load(to)
  {
    var n := |workers| - 1;
    if w < n {
      PendingAfter(workers[..n], w, to);
      assert workers[w := to][..n] == workers[..n][w := to];
    } else {
      assert workers[w := to][..n] == workers[..n];
    }
  }

  lemma {:induction false} AllReady(workers: seq<Worker>)
    requires forall w :: 0 <= w < |workers| ==> workers[w] == Ready
    ensures Pending(workers) == |workers|
  {
    if workers != [] {
      AllReady(workers[..|workers| - 1]);
    }
  }

  /** Every run is finite: two turns an item, and one more a worker. */
  lemma {:induction false} RunsEnd<T, R(!new)>(acts: seq<Act>, items: seq<T>, limit: int, fn: T -> R, s: State<R>)
    requires Run(acts, items, limit, fn, s)
    ensures |acts| + 2 * (|items| - |s.calls|) + Pending(s.workers) == 2 * |items| + |s.workers|
    decreases |acts|
  {
    RunKeepsInv(acts, items, limit, fn, s);
    if acts == [] {
      AllReady(s.workers);
    } else {
      var a := acts[|acts| - 1];
      var p: State<R> :| Run(acts[..|acts| - 1], items, limit, fn, p) && |p.results| == |items| && Enabled(p, a)
          && s == Do(p, items, fn, a);
      RunsEnd(acts[..|acts| - 1], items, limit, fn, p);
      RunKeepsInv(acts[..|acts| - 1], items, limit, fn, p);
      hide Run, Inv;
      PendingAfter(p.workers, a.w, s.workers[a.w]);
    }
  }

  /** And it can always go on until all workers have stopped. */
  lemma NeverStuck<T, R(!new)>(acts: seq<Act>, items: seq<T>, limit: int, fn: T -> R, s: State<R>, w: nat)
    requires Run(acts, items, limit, fn, s) && w < |s.workers| && !s.workers[w].Stopped?
    ensures Enabled(s, Take(w)) || Enabled(s, Finish(w))
  {
    RunKeepsInv(acts, items, limit, fn, s);
  }
}
