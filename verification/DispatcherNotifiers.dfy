/**
  * The handler of Glib::Dispatcher uses its notifier after the emission: when that one was deleted
  * by then. The test whether the thread has a notifier misses that it may have another one.
  */
module DispatcherNotifiers {
  import opened Wrappers
  import opened DispatcherProtocol
  import opened DispatcherRuns

  /** The usage rule: while emissions are open, no Dispatcher is created after the last one was destroyed. */
  predicate Obeys(w: World, e: Event) {
    e.Create? && w.instance.None? ==> w.emissions == []
  }

  predicate AllObey(w: World, es: seq<Event>)
    requires CanRun(w, es)
    decreases es
  {
    es == [] || (Obeys(w, es[0]) && AllObey(Apply(w, es[0]), es[1..]))
  }

  ghost predicate NoneStale(w: World) {
    !w.dangling
    && (w.instance.Some? ==> forall i :: 0 <= i < |w.emissions| ==> w.emissions[i].notifier == w.instance.value)
  }

  /** Under the usage rule no handler ever touches a deleted notifier. */
  lemma {:induction false} ObedientRunsNeverDangle(w: World, es: seq<Event>)
    requires Inv(w) && NoneStale(w) && CanRun(w, es) && AllObey(w, es)
    ensures NoneStale(After(w, es))
    decreases es
  {
    if es != [] {
      InvKept(w, es[0]);
      ObedientStep(w, es[0]);
      ObedientRunsNeverDangle(Apply(w, es[0]), es[1..]);
    }
  }

  lemma {:induction false} ObedientStep(w: World, e: Event)
    requires Inv(w) && NoneStale(w) && Enabled(w, e) && Obeys(w, e)
    ensures NoneStale(Apply(w, e))
  {
  }

  /** In any state, the member access behind the null test fails exactly when another notifier is installed. */
  lemma {:induction false} DanglesExactlyWhenReplaced(w: World)
    requires Inv(w) && Enabled(w, EndEmission)
    ensures !(Uses(w, EndEmission) <= w.memory) <==> Stale(w)
    ensures Apply(w, EndEmission).dangling <==> Stale(w)
  {
  }

  function OpenEmissions(w: World): nat {
    |w.emissions|
  }

  /** At some point the thread has no notifier: its last Dispatcher was destroyed. */
  predicate Gap(w: World, es: seq<Event>)
    requires CanRun(w, es)
    decreases es
  {
    w.instance.None? || (es != [] && Gap(Apply(w, es[0]), es[1..]))
  }

  /** What a step can do to the notifier and to the stack of emissions. */
  lemma {:induction false} StepChanges(w: World, e: Event)
    requires Enabled(w, e)
    ensures var t := Apply(w, e);
            && t.notifiers >= w.notifiers
            && (t.instance == w.instance || t.instance.None? || (w.instance.None? && t.instance == Some(w.notifiers)))
            && (t.instance.Some? && w.instance.None? ==> t.notifiers > t.instance.value)
            && (if t.dangling || t.misled then t.emissions == w.emissions
                else if e.BeginEmission? then
                  |t.emissions| == |w.emissions| + 1 && t.emissions[..|w.emissions|] == w.emissions
                else if e.EndEmission? then t.emissions == w.emissions[..|w.emissions| - 1]
                else t.emissions == w.emissions)
  {
  }

  lemma {:induction false} OnlyNewNotifiers(w: World, es: seq<Event>, n: nat)
    requires CanRun(w, es) && n <= w.notifiers && (w.instance.Some? ==> w.instance.value >= n)
    ensures After(w, es).instance.Some? ==> After(w, es).instance.value >= n
    decreases es
  {
    if es != [] {
      StepChanges(w, es[0]);
      OnlyNewNotifiers(Apply(w, es[0]), es[1..], n);
    }
  }

  /** A notifier installed later is the same one exactly if there always was one. */
  lemma {:induction false} ReplacedByGap(w: World, es: seq<Event>, id: NotifierId)
    requires CanRun(w, es) && id < w.notifiers && (w.instance.Some? ==> w.instance.value == id)
    requires After(w, es).instance.Some?
    ensures After(w, es).instance == Some(id) <==> !Gap(w, es)
    decreases es
  {
    if w.instance.None? {
      OnlyNewNotifiers(w, es, id + 1);
    } else if es != [] {
      StepChanges(w, es[0]);
      ReplacedByGap(Apply(w, es[0]), es[1..], id);
    }
  }

  /** Emissions that stay open stay the same. */
  lemma {:induction false} FramesKept(w: World, es: seq<Event>, depth: nat)
    requires CanRun(w, es) && Inside(w, es, OpenEmissions, depth)
    ensures |After(w, es).emissions| >= depth && After(w, es).emissions[..depth] == w.emissions[..depth]
    decreases es
  {
    if es != [] {
      StepChanges(w, es[0]);
      var t := Apply(w, es[0]);
      FramesKept(t, es[1..], depth);
      FrontKept(w.emissions, t.emissions, depth);
    }
  }

  lemma {:induction false} FrontKept(a: seq<Emission>, b: seq<Emission>, depth: nat)
    requires depth <= |a| && depth <= |b|
    requires b == a || (|b| == |a| + 1 && b[..|a|] == a) || (|a| > 0 && b == a[..|a| - 1])
    ensures a[..depth] == b[..depth]
  {
    if |b| == |a| + 1 {
      assert b[..depth] == b[..|a|][..depth];
    }
  }

  /** The run a, then the beginning of an emission, and then b inside of that emission. */
  ghost predicate EmissionSpans(a: seq<Event>, b: seq<Event>) {
    && CanRun(START, a) && Enabled(After(START, a), BeginEmission)
    && var w := Apply(After(START, a), BeginEmission);
       !w.misled && CanRun(w, b) && Inside(w, b, OpenEmissions, |w.emissions|)
  }

  /** Where such a run gets to. */
  ghost function Spanned(a: seq<Event>, b: seq<Event>): World
    requires EmissionSpans(a, b)
  {
    After(Apply(After(START, a), BeginEmission), b)
  }

  /** The beginning of the emission that is at this place of the stack. */
  lemma {:induction false} EmissionBegan(es: seq<Event>, d: nat) returns (a: seq<Event>, b: seq<Event>)
    requires CanRun(START, es) && !After(START, es).dangling && d < |After(START, es).emissions|
    ensures es == a + [BeginEmission] + b && EmissionSpans(a, b)
    ensures |After(START, a).emissions| == d && Spanned(a, b) == After(START, es)
    decreases es
  {
    var n := |es| - 1;
    RunSplits(START, es);
    var pre, e := es[..n], es[n];
    assert es == pre + [e];
    StepChanges(After(START, pre), e);
    if e.BeginEmission? && !After(START, es).misled && d == |After(START, pre).emissions| {
      a, b := pre, [];
      assert a + [BeginEmission] + b == es;
    } else {
      a, b := EmissionBegan(pre, d);
      var w := Apply(After(START, a), BeginEmission);
      StepChanges(After(START, a), BeginEmission);
      InsideSnoc(w, b, e, OpenEmissions, |w.emissions|);
      RunsJoin(w, b, [e]);
      assert a + [BeginEmission] + (b + [e]) == a + [BeginEmission] + b + [e];
      b := b + [e];
    }
  }

  /** The notifier of the innermost emission is the one that was installed when it began. */
  lemma {:induction false} InnermostFrame(a: seq<Event>, b: seq<Event>)
    requires EmissionSpans(a, b)
    ensures var w, t := Apply(After(START, a), BeginEmission), Spanned(a, b);
            && w.instance.Some? && w.instance.value < w.notifiers
            && (|t.emissions| == |w.emissions| ==> t.emissions[|t.emissions| - 1].notifier == w.instance.value)
  {
    Reachable(a);
    var v := After(START, a);
    var w, t := Apply(v, BeginEmission), Spanned(a, b);
    BeganByInstalled(v);
    FramesKept(w, b, |w.emissions|);
    SameTop(w.emissions, t.emissions);
  }

  lemma {:induction false} BeganByInstalled(v: World)
    requires Inv(v) && Enabled(v, BeginEmission) && !Apply(v, BeginEmission).misled
    ensures var w := Apply(v, BeginEmission);
            && w.instance.Some? && w.instance.value < w.notifiers
            && w.emissions != [] && w.emissions[|w.emissions| - 1].notifier == w.instance.value
  {
  }

  lemma {:induction false} SameTop(a: seq<Emission>, b: seq<Emission>)
    requires a != [] && |b| >= |a| && b[..|a|] == a[..|a|]
    ensures |b| == |a| ==> b[|b| - 1] == a[|a| - 1]
  {
    assert a[..|a|][|a| - 1] == b[..|a|][|a| - 1];
  }

  /**
    * es ends with the end of an emission. Inside of that emission the last Dispatcher of the thread was
    * destroyed, and one created later is there.
    */
  ghost predicate EndsReplaced(es: seq<Event>, a: seq<Event>, b: seq<Event>) {
    && es == a + [BeginEmission] + b + [EndEmission] && EmissionSpans(a, b)
    && |Spanned(a, b).emissions| == |After(START, a).emissions| + 1
    && Gap(Apply(After(START, a), BeginEmission), b)
    && Spanned(a, b).instance.Some?
  }

  lemma {:induction false} StaleExactlyByGap(a: seq<Event>, b: seq<Event>)
    requires EmissionSpans(a, b) && |Spanned(a, b).emissions| == |After(START, a).emissions| + 1
    ensures Stale(Spanned(a, b)) <==> Gap(Apply(After(START, a), BeginEmission), b) && Spanned(a, b).instance.Some?
  {
    var w := Apply(After(START, a), BeginEmission);
    InnermostFrame(a, b);
    if Spanned(a, b).instance.Some? {
      ReplacedByGap(w, b, w.instance.value);
    }
  }

  lemma {:induction false} SpanJoins(a: seq<Event>, b: seq<Event>)
    requires EmissionSpans(a, b)
    ensures CanRun(START, a + [BeginEmission] + b) && After(START, a + [BeginEmission] + b) == Spanned(a, b)
  {
    RunStep(After(START, a), BeginEmission, []);
    RunsJoin(START, a, [BeginEmission]);
    RunsJoin(START, a + [BeginEmission], b);
  }

  /** A run uses a deleted notifier exactly if it ends like that. */
  lemma {:induction false} RunDanglesExactlyWhenReplaced(es: seq<Event>)
    requires CanRun(START, es)
    ensures After(START, es).dangling <==> exists a, b :: EndsReplaced(es, a, b)
  {
    if a, b :| EndsReplaced(es, a, b) {
      ReplacedDangles(es, a, b);
    }
    if After(START, es).dangling {
      var a, b := DanglingIsReplaced(es);
    }
  }

  lemma {:induction false} ReplacedDangles(es: seq<Event>, a: seq<Event>, b: seq<Event>)
    requires CanRun(START, es) && EndsReplaced(es, a, b)
    ensures After(START, es).dangling
  {
    SpanJoins(a, b);
    RunSplits(START, es);
    assert es[..|es| - 1] == a + [BeginEmission] + b;
    Reachable(a + [BeginEmission] + b);
    StaleExactlyByGap(a, b);
    DanglesExactlyWhenReplaced(Spanned(a, b));
  }

  lemma {:induction false} DanglingIsReplaced(es: seq<Event>) returns (a: seq<Event>, b: seq<Event>)
    requires CanRun(START, es) && After(START, es).dangling
    ensures EndsReplaced(es, a, b)
  {
    var n := |es| - 1;
    RunSplits(START, es);
    var pre, e := es[..n], es[n];
    var w := After(START, pre);
    StepDangles(w, e);
    assert es == pre + [EndEmission];
    Reachable(pre);
    DanglesExactlyWhenReplaced(w);
    a, b := EmissionBegan(pre, |w.emissions| - 1);
    StaleExactlyByGap(a, b);
  }

  lemma {:induction false} StepDangles(w: World, e: Event)
    requires Enabled(w, e) && Apply(w, e).dangling
    ensures e.EndEmission?
  {
  }

  /** Such a run exists: a slot destroys the only Dispatcher of the thread and creates another one. */
  lemma {:induction false} ReplacingRunDangles()
    ensures var es := [Create(0), Connect(0), Send(0), ReadPipe, BeginEmission, RunSlot(0)]
                      + [BeginDestroy(0), PollInDestructor, DeleteInDestructor, ClearInDestructor, Unreference]
                      + [Create(1), EndEmission];
            CanRun(START, es) && After(START, es).dangling
  {
    var a := [Create(0), Connect(0), Send(0), ReadPipe, BeginEmission, RunSlot(0)];
    var b := [BeginDestroy(0), PollInDestructor, DeleteInDestructor, ClearInDestructor, Unreference];
    IntoTheSlot();
    InTheSlot();
    Replacing();
    RunsJoin(START, a, b);
    RunsJoin(START, a + b, [Create(1), EndEmission]);
  }

  lemma {:induction false} Replacing()
    ensures CanRun(GONE, [Create(1), EndEmission]) && After(GONE, [Create(1), EndEmission]).dangling
  {
    var replaced := Apply(GONE, Create(1));
    assert Stale(replaced);
    RunStep(replaced, EndEmission, []);
    RunStep(GONE, Create(1), [EndEmission]);
  }
}
