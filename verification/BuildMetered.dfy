/**
 The drain's concurrent builds: one coroutine per selected issue under a semaphore, each charging the shared
 budget before it builds, interleaved with each other and with other lanes' charges.
 */
module BuildMetered {
  import opened Collections
  import opened Window
  import opened Wrappers

  datatype Stage =
    | Waiting                     // for the semaphore
    | Inside                      // holds a permit, not metered yet
    | Charged                     // metered; the best-effort run-ledger row still to come
    | Building                    // handed to `build`
    | Built                       // `build` returned, in the `built` set
    | Declined                    // the budget left no room
    | Crashed(started: bool)      // an exception left the coroutine, from `build` or before it

  datatype Config = Config(cap: real, amount: real, maxParallel: Option<nat>)

  /** `ours` are the rows this drain recorded, in order; `rows` all of them. */
  datatype Drain = Drain(stages: seq<Stage>, permits: nat, clock: int, rows: seq<Charge>, ours: seq<Charge>)

  datatype Event =
    | Enter(i: nat)
    | Admit(i: nat, stamp: int)
    | Decline(i: nat)
    | MeterRaises(i: nat)
    | Record(i: nat)              // the run-ledger write, whether it succeeded or was swallowed
    | Finish(i: nat)
    | BuildRaises(i: nat)
    | Other(charge: Charge)       // another lane's charge
    | Tick(now: int)

  function Permits(cfg: Config, issues: nat): nat {
    if cfg.maxParallel.Some? && cfg.maxParallel.value > 0 then cfg.maxParallel.value else issues
  }

  function Start(cfg: Config, issues: nat, clock: int, rows: seq<Charge>): Drain {
    Drain(seq(issues, _ => Waiting), Permits(cfg, issues), clock, rows, [])
  }

  predicate At(s: Drain, i: nat, stage: Stage) {
    i < |s.stages| && s.stages[i] == stage
  }

  predicate Enabled(cfg: Config, s: Drain, e: Event) {
    match e
    case Enter(i) => At(s, i, Waiting) && s.permits > 0
    case Admit(i, stamp) => At(s, i, Inside) && stamp <= s.clock && Fits(s.rows, cfg.amount, cfg.cap, s.clock)
    case Decline(i) => At(s, i, Inside) && !Fits(s.rows, cfg.amount, cfg.cap, s.clock)
    case MeterRaises(i) => At(s, i, Inside)
    case Record(i) => At(s, i, Charged)
    case Finish(i) => At(s, i, Building)
    case BuildRaises(i) => At(s, i, Building)
    case Other(_) => true
    case Tick(now) => s.clock <= now
  }

  function Move(s: Drain, i: nat, stage: Stage): Drain
    requires i < |s.stages|
  {
    s.(stages := s.stages[i := stage])
  }

  /** Leaving the semaphore's block gives the permit back, exception or not. */
  function Leave(s: Drain, i: nat, stage: Stage): Drain
    requires i < |s.stages|
  {
    Move(s, i, stage).(permits := s.permits + 1)
  }

  function After(cfg: Config, s: Drain, e: Event): Drain
    requires Enabled(cfg, s, e)
  {
    match e
    case Enter(i) => Move(s, i, Inside).(permits := s.permits - 1)
    case Admit(i, stamp) =>
      Move(s, i, Charged).(rows := s.rows + [Charge(stamp, cfg.amount)], ours := s.ours + [Charge(stamp, cfg.amount)])
    case Decline(i) => Leave(s, i, Declined)
    case MeterRaises(i) => Leave(s, i, Crashed(false))
    case Record(i) => Move(s, i, Building)
    case Finish(i) => Leave(s, i, Built)
    case BuildRaises(i) => Leave(s, i, Crashed(true))
    case Other(charge) => s.(rows := s.rows + [charge])
    case Tick(now) => s.(clock := now)
  }

  ghost predicate Run(cfg: Config, s: Drain, es: seq<Event>)
    decreases |es|
  {
    es == [] || (Enabled(cfg, s, es[0]) && Run(cfg, After(cfg, s, es[0]), es[1..]))
  }

  ghost function Final(cfg: Config, s: Drain, es: seq<Event>): Drain
    requires Run(cfg, s, es)
    decreases |es|
  {
    if es == [] then s else Final(cfg, After(cfg, s, es[0]), es[1..])
  }

  // --- counting ---

  const STARTED: Stage -> bool := (s: Stage) => s.Building? || s.Built? || s == Crashed(true)
  const CHARGED: Stage -> bool := (s: Stage) => s.Charged?
  const HOLDING: Stage -> bool := (s: Stage) => s.Inside? || s.Charged? || s.Building?

  ghost predicate OnlyOurAmount(cfg: Config, ours: seq<Charge>) {
    forall c | c in ours :: c.amount == cfg.amount
  }

  ghost predicate Inv(cfg: Config, issues: nat, s: Drain) {
    && |s.stages| == issues
    && Count(s.stages, HOLDING) + s.permits == Permits(cfg, issues)
    && |s.ours| == Count(s.stages, STARTED) + Count(s.stages, CHARGED)
    && OnlyOurAmount(cfg, s.ours)
  }

  lemma MoveCounts(s: Drain, i: nat, stage: Stage)
    requires i < |s.stages|
    ensures var s' := Move(s, i, stage);
      && Count(s'.stages, HOLDING) + (if HOLDING(s.stages[i]) then 1 else 0)
        == Count(s.stages, HOLDING) + (if HOLDING(stage) then 1 else 0)
      && Count(s'.stages, STARTED) + (if STARTED(s.stages[i]) then 1 else 0)
        == Count(s.stages, STARTED) + (if STARTED(stage) then 1 else 0)
      && Count(s'.stages, CHARGED) + (if CHARGED(s.stages[i]) then 1 else 0)
        == Count(s.stages, CHARGED) + (if CHARGED(stage) then 1 else 0)
  {
    CountUpdate(s.stages, i, stage, HOLDING);
    CountUpdate(s.stages, i, stage, STARTED);
    CountUpdate(s.stages, i, stage, CHARGED);
  }

  /** Coroutine `i` moves on within the semaphore's block or into it. */
  lemma InvForward(cfg: Config, issues: nat, s: Drain, i: nat, stage: Stage, s': Drain)
    requires Inv(cfg, issues, s) && i < |s.stages| && s'.stages == s.stages[i := stage] && HOLDING(stage)
    requires s'.permits == if HOLDING(s.stages[i]) then s.permits else s.permits - 1
    requires !STARTED(s.stages[i]) && (CHARGED(s.stages[i]) ==> STARTED(stage))
    requires STARTED(stage) ==> CHARGED(s.stages[i]) && s'.ours == s.ours
    requires CHARGED(stage) ==> |s'.ours| == |s.ours| + 1 && OnlyOurAmount(cfg, s'.ours)
    requires !STARTED(stage) && !CHARGED(stage) ==> s'.ours == s.ours
    ensures Inv(cfg, issues, s')
  {
    MoveCounts(s, i, stage);
  }

  /** Coroutine `i` leaves the block as started as it was. */
  lemma InvLeave(cfg: Config, issues: nat, s: Drain, i: nat, stage: Stage)
    requires Inv(cfg, issues, s) && i < |s.stages| && HOLDING(s.stages[i]) && !HOLDING(stage)
    requires STARTED(stage) == STARTED(s.stages[i]) && !CHARGED(stage) && !CHARGED(s.stages[i])
    ensures Inv(cfg, issues, Leave(s, i, stage))
  {
    MoveCounts(s, i, stage);
  }

  lemma InvEnd(cfg: Config, issues: nat, s: Drain, e: Event)
    requires Inv(cfg, issues, s) && Enabled(cfg, s, e) && (e.Decline? || e.MeterRaises? || e.Finish? || e.BuildRaises?)
    ensures Inv(cfg, issues, After(cfg, s, e))
  {
    match e
    case Decline(i) => InvLeave(cfg, issues, s, i, Declined);
    case MeterRaises(i) => InvLeave(cfg, issues, s, i, Crashed(false));
    case Finish(i) => InvLeave(cfg, issues, s, i, Built);
    case BuildRaises(i) => InvLeave(cfg, issues, s, i, Crashed(true));
  }

  lemma {:induction false} InvStep(cfg: Config, issues: nat, s: Drain, e: Event)
    requires Inv(cfg, issues, s) && Enabled(cfg, s, e)
    ensures Inv(cfg, issues, After(cfg, s, e))
  {
    match e
    case Enter(i) => InvForward(cfg, issues, s, i, Inside, After(cfg, s, e));
    case Admit(i, _) => InvForward(cfg, issues, s, i, Charged, After(cfg, s, e));
    case Record(i) => InvForward(cfg, issues, s, i, Building, After(cfg, s, e));
    case Other(_) =>
    case Tick(_) =>
    case _ => InvEnd(cfg, issues, s, e);
  }

  lemma {:induction false} InvRun(cfg: Config, issues: nat, s: Drain, es: seq<Event>)
    requires Inv(cfg, issues, s) && Run(cfg, s, es)
    ensures Inv(cfg, issues, Final(cfg, s, es))
    decreases |es|
  {
    if es != [] {
      InvStep(cfg, issues, s, es[0]);
      InvRun(cfg, issues, After(cfg, s, es[0]), es[1..]);
    }
  }

  lemma StartInv(cfg: Config, issues: nat, clock: int, rows: seq<Charge>)
    ensures Inv(cfg, issues, Start(cfg, issues, clock, rows))
  {
    var s := Start(cfg, issues, clock, rows);
    CountNone(s.stages, HOLDING);
    CountNone(s.stages, STARTED);
    CountNone(s.stages, CHARGED);
  }

  // --- the promises ---

  /**
   In every interleaving no more builds run at once than the configured parallelism, and none more than there are
   issues when it is unset or zero.
   */
  lemma ConcurrencyIsBounded(cfg: Config, issues: nat, clock: int, rows: seq<Charge>, es: seq<Event>)
    requires Run(cfg, Start(cfg, issues, clock, rows), es)
    ensures var building := Count(Final(cfg, Start(cfg, issues, clock, rows), es).stages, (s: Stage) => s.Building?);
      building <= issues && (cfg.maxParallel.Some? && cfg.maxParallel.value > 0 ==> building <= cfg.maxParallel.value)
  {
    StartInv(cfg, issues, clock, rows);
    InvRun(cfg, issues, Start(cfg, issues, clock, rows), es);
    CountWeaker(Final(cfg, Start(cfg, issues, clock, rows), es).stages, (s: Stage) => s.Building?, HOLDING);
    CountAtMost(Final(cfg, Start(cfg, issues, clock, rows), es).stages, (s: Stage) => s.Building?);
  }

  predicate IsFinal(s: Stage) {
    s.Built? || s.Declined? || s.Crashed?
  }

  /** Every coroutine has ended, with or without an exception. */
  predicate Quiescent(s: Drain) {
    forall i | 0 <= i < |s.stages| :: IsFinal(s.stages[i])
  }

  lemma {:induction false} SumOfEqual(cfg: Config, ours: seq<Charge>)
    requires OnlyOurAmount(cfg, ours)
    ensures Sum(ours) == |ours| as real * cfg.amount
  {
    if ours != [] {
      assert ours[0] in ours;
      SumOfEqual(cfg, ours[1..]);
      assert |ours| as real == 1.0 + (|ours| - 1) as real;
    }
  }

  /** One row of the estimate per started build, and no other. */
  ghost predicate ChargedPerStart(cfg: Config, s: Drain) {
    && |s.ours| == Count(s.stages, STARTED) && OnlyOurAmount(cfg, s.ours)
    && Sum(s.ours) == Count(s.stages, STARTED) as real * cfg.amount
  }

  lemma {:induction false} QuiescentIsCharged(cfg: Config, issues: nat, s: Drain)
    requires Inv(cfg, issues, s) && Quiescent(s)
    ensures ChargedPerStart(cfg, s)
  {
    forall i | 0 <= i < |s.stages| ensures !CHARGED(s.stages[i]) { assert IsFinal(s.stages[i]); }
    CountNone(s.stages, CHARGED);
    SumOfEqual(cfg, s.ours);
  }

  /**
   When the coroutines have ended, the drain has recorded the estimate once for every build it started and for
   nothing else, whatever was declined, crashed or failed to record its run state.
   */
  lemma {:induction false} EveryStartIsChargedOnce(cfg: Config, issues: nat, clock: int, rows: seq<Charge>,
      es: seq<Event>)
    requires Run(cfg, Start(cfg, issues, clock, rows), es) && Quiescent(Final(cfg, Start(cfg, issues, clock, rows), es))
    ensures ChargedPerStart(cfg, Final(cfg, Start(cfg, issues, clock, rows), es))
  {
    StartInv(cfg, issues, clock, rows);
    InvRun(cfg, issues, Start(cfg, issues, clock, rows), es);
    QuiescentIsCharged(cfg, issues, Final(cfg, Start(cfg, issues, clock, rows), es));
  }

  /** The rows of a drain are its own and the other lanes', in some interleaving; nothing is lost. */
  ghost predicate Merges(rows: seq<Charge>, before: seq<Charge>, ours: seq<Charge>) {
    multiset(before) + multiset(ours) <= multiset(rows)
  }

  lemma {:induction false} OursAreRecorded(cfg: Config, s: Drain, es: seq<Event>, before: seq<Charge>)
    requires Run(cfg, s, es) && Merges(s.rows, before, s.ours)
    ensures Merges(Final(cfg, s, es).rows, before, Final(cfg, s, es).ours)
    decreases |es|
  {
    if es != [] { OursAreRecorded(cfg, After(cfg, s, es[0]), es[1..], before); }
  }

  /** The issues whose coroutine is in a stage of that kind. */
  function Chosen(issues: seq<nat>, stages: seq<Stage>, p: Stage -> bool): seq<nat>
    requires |issues| == |stages|
  {
    if issues == [] then []
    else
      var n := |issues| - 1;
      Chosen(issues[..n], stages[..n], p) + if p(stages[n]) then [issues[n]] else []
  }

  /** `r` lists what stands at the given places of `issues`, in the order of `issues`. */
  ghost predicate PickedAt(r: seq<nat>, issues: seq<nat>, places: seq<nat>) {
    && |r| == |places|
    && (forall k | 0 <= k < |places| :: places[k] < |issues| && r[k] == issues[places[k]])
    && (forall j, k | 0 <= j < k < |places| :: places[j] < places[k])
  }

  /** The last issue is picked too. */
  lemma PickedNext(r: seq<nat>, issues: seq<nat>, places: seq<nat>) returns (more: seq<nat>)
    requires issues != [] && PickedAt(r, issues[..|issues| - 1], places)
    ensures more == places + [|issues| - 1] && PickedAt(r + [issues[|issues| - 1]], issues, more)
  {
    var n := |issues| - 1;
    more := places + [n];
    forall k | 0 <= k < |more| ensures more[k] < |issues| && (r + [issues[n]])[k] == issues[more[k]] {
      if k < |places| { assert issues[..n][places[k]] == issues[places[k]]; }
    }
  }

  lemma PickedLonger(r: seq<nat>, issues: seq<nat>, places: seq<nat>)
    requires issues != [] && PickedAt(r, issues[..|issues| - 1], places)
    ensures PickedAt(r, issues, places)
  {
    forall k | 0 <= k < |places| ensures places[k] < |issues| && r[k] == issues[places[k]] {
      assert issues[..|issues| - 1][places[k]] == issues[places[k]];
    }
  }

  /** `places` are those of the stages of that kind. */
  ghost predicate PlacesOf(places: seq<nat>, stages: seq<Stage>, p: Stage -> bool) {
    forall i: nat :: i in places <==> i < |stages| && p(stages[i])
  }

  lemma PlacesNext(places: seq<nat>, stages: seq<Stage>, p: Stage -> bool)
    requires stages != [] && PlacesOf(places, stages[..|stages| - 1], p)
    ensures PlacesOf(if p(stages[|stages| - 1]) then places + [|stages| - 1] else places, stages, p)
  {
    var n := |stages| - 1;
    var more := if p(stages[n]) then places + [n] else places;
    forall i: nat ensures i in more <==> i < |stages| && p(stages[i]) {
      if i < n { assert stages[..n][i] == stages[i]; }
    }
  }

  lemma {:induction false} ChosenArePicked(issues: seq<nat>, stages: seq<Stage>, p: Stage -> bool)
      returns (places: seq<nat>)
    requires |issues| == |stages|
    ensures PickedAt(Chosen(issues, stages, p), issues, places) && PlacesOf(places, stages, p)
    decreases |issues|
  {
    if issues == [] {
      places := [];
    } else {
      var n := |issues| - 1;
      var r := Chosen(issues[..n], stages[..n], p);
      places := ChosenArePicked(issues[..n], stages[..n], p);
      PlacesNext(places, stages, p);
      if p(stages[n]) {
        places := PickedNext(r, issues, places);
      } else {
        assert r + [] == r;
        PickedLonger(r, issues, places);
      }
    }
  }

  /** `[issue for issue in issues if issue in built]`. */
  function Returned(issues: seq<nat>, stages: seq<Stage>): seq<nat>
    requires |issues| == |stages|
  {
    Chosen(issues, stages, (s: Stage) => s.Built?)
  }

  /** Nothing raises: neither the metering nor a build. */
  predicate Uneventful(es: seq<Event>) {
    forall i | 0 <= i < |es| :: !es[i].MeterRaises? && !es[i].BuildRaises?
  }

  ghost predicate NobodyCrashed(s: Drain) {
    forall i | 0 <= i < |s.stages| :: !s.stages[i].Crashed?
  }

  lemma {:induction false} UneventfulRun(cfg: Config, s: Drain, es: seq<Event>)
    requires Run(cfg, s, es) && Uneventful(es) && NobodyCrashed(s)
    ensures NobodyCrashed(Final(cfg, s, es))
    decreases |es|
  {
    if es != [] {
      assert !es[0].MeterRaises? && !es[0].BuildRaises?;
      assert Uneventful(es[1..]) by { assert forall i | 0 <= i < |es| - 1 :: es[1..][i] == es[i + 1]; }
      UneventfulRun(cfg, After(cfg, s, es[0]), es[1..]);
    }
  }

  /** Coroutine `i` was handed to its build in this stretch. */
  ghost predicate HandedIn(es: seq<Event>, i: nat) {
    Record(i) in es
  }

  /** A coroutine counts as started exactly when it was before or its build was handed over since. */
  lemma {:induction false} StartedIsHanded(cfg: Config, s: Drain, es: seq<Event>, i: nat)
    requires Run(cfg, s, es) && i < |s.stages|
    ensures |Final(cfg, s, es).stages| == |s.stages|
    ensures STARTED(Final(cfg, s, es).stages[i]) <==> STARTED(s.stages[i]) || HandedIn(es, i)
    decreases |es|
  {
    if es != [] {
      StartedIsHanded(cfg, After(cfg, s, es[0]), es[1..], i);
      assert es == [es[0]] + es[1..];
      if e :| e in es && e == Record(i) && e != es[0] { assert e in es[1..]; }
    }
  }

  /**
   At the end of any run in which nothing raised, whatever was interleaved, the drain returns exactly the issues it
   handed to their builds, in rank order.
   */
  lemma {:induction false} ReturnsWhatItStarted(
      cfg: Config, issues: seq<nat>, clock: int, rows: seq<Charge>, es: seq<Event>) returns (places: seq<nat>)
    requires Run(cfg, Start(cfg, |issues|, clock, rows), es) && Uneventful(es)
    requires Quiescent(Final(cfg, Start(cfg, |issues|, clock, rows), es))
    ensures var stages := Final(cfg, Start(cfg, |issues|, clock, rows), es).stages;
      |stages| == |issues| && PickedAt(Returned(issues, stages), issues, places)
    ensures forall i: nat :: i in places <==> i < |issues| && HandedIn(es, i)
  {
    var start := Start(cfg, |issues|, clock, rows);
    var end := Final(cfg, start, es);
    StartInv(cfg, |issues|, clock, rows);
    InvRun(cfg, |issues|, start, es);
    UneventfulRun(cfg, start, es);
    places := ChosenArePicked(issues, end.stages, (s: Stage) => s.Built?);
    forall i: nat ensures i in places <==> i < |issues| && HandedIn(es, i) {
      if i < |issues| {
        assert IsFinal(end.stages[i]);
        StartedIsHanded(cfg, start, es, i);
      }
    }
  }

  /** Until every coroutine has ended one of them can go on, whatever the cap, the permits and the other lanes. */
  lemma NeverStuck(cfg: Config, issues: nat, clock: int, rows: seq<Charge>, es: seq<Event>) returns (e: Event)
    requires Run(cfg, Start(cfg, issues, clock, rows), es)
    requires !Quiescent(Final(cfg, Start(cfg, issues, clock, rows), es))
    ensures Enabled(cfg, Final(cfg, Start(cfg, issues, clock, rows), es), e)
    ensures e.Enter? || e.Admit? || e.Decline? || e.Record? || e.Finish?
  {
    var s := Final(cfg, Start(cfg, issues, clock, rows), es);
    StartInv(cfg, issues, clock, rows);
    InvRun(cfg, issues, Start(cfg, issues, clock, rows), es);
    var i: nat :| i < |s.stages| && !IsFinal(s.stages[i]);
    var k := if k: nat :| k < |s.stages| && HOLDING(s.stages[k]) then k else i;
    if s.stages[k].Waiting? {
      CountNone(s.stages, HOLDING);
      e := Enter(k);
    } else if s.stages[k].Inside? {
      e := if Fits(s.rows, cfg.amount, cfg.cap, s.clock) then Admit(k, s.clock) else Decline(k);
    } else {
      e := if s.stages[k].Charged? then Record(k) else Finish(k);
    }
  }
}
