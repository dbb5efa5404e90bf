/**
  One container's watcher (internal/logwatch/watcher.go): its rules, each with
  the slice of recent fire times that `fire` prunes in place, and the loops that
  read log streams.  Matching is an uninterpreted predicate; the clock returns
  readings that never go back.
  */
module Watching {
  import opened Models
  import opened LogRules
  import opened FireWindow

  class Clock {
    var time: int

    constructor ()
    {
      time := 0;
    }

    /** A clock reading: some time not before the previous one. */
    method Now() returns (now: int)
      modifies this
      ensures now == time >= old(time)
    {
      var elapsed: int :| elapsed >= 0;
      time := time + elapsed;
      now := time;
    }
  }

  /** The rule fired less than its cooldown ago. */
  predicate CoolingDown(history: seq<int>, cooldown: int, now: int) {
    history != [] && now - history[|history| - 1] < cooldown
  }

  /** A compiled rule: `fires[..len]` is the slice of recent fire times, `history` all of them. */
  class CompiledRule {
    const rule: LogRule
    var fires: array<int>
    var len: nat
    ghost var history: seq<int>

    constructor (rule: LogRule)
      ensures this.rule == rule && history == [] && len == 0 && fresh(fires)
      ensures Valid()
    {
      this.rule := rule;
      fires := new int[4];
      len := 0;
      history := [];
    }

    /** The slice is the full history cut to the ten minutes before its last fire, in order. */
    ghost predicate Valid()
      reads this, fires
    {
      && len <= fires.Length
      && NonDecreasing(history)
      && Spaced(history, Cooldown(rule.cooldownSec))
      && (history == [] ==> len == 0)
      && (history != [] ==> fires[..len] == After(history, history[|history| - 1] - BREAKER_WINDOW))
    }

    ghost predicate Before(now: int)
      reads this
    {
      forall k :: 0 <= k < |history| ==> history[k] <= now
    }

    /** The check in `evaluate`: it reads only the last entry of the pruned slice. */
    method InCooldown(now: int) returns (cooling: bool)
      requires Valid()
      ensures cooling == CoolingDown(history, Cooldown(rule.cooldownSec), now)
    {
      if history != [] {
        AfterSnoc(history[..|history| - 1], history[|history| - 1], history[|history| - 1] - BREAKER_WINDOW);
        assert history[..|history| - 1] + [history[|history| - 1]] == history;
        assert fires[..len][len - 1] == history[|history| - 1];
      }
      cooling := len > 0 && now - fires[len - 1] < Cooldown(rule.cooldownSec);
    }

    /** pruneOld: keeps, in place and in order, the times strictly after the cutoff. */
    method PruneOld(cutoff: int)
      requires len <= fires.Length
      modifies fires, this`len
      ensures len <= fires.Length
      ensures fires[..len] == After(old(fires[..len]), cutoff)
    {
      hide After;
      var times, n := fires, len;
      ghost var was := times[..n];
      var kept := 0;
      for k := 0 to n
        modifies times
        invariant 0 <= kept <= k
        invariant times[..kept] == After(was[..k], cutoff)
        invariant forall j :: k <= j < n ==> times[j] == was[j]
      {
        var t := times[k];
        AfterSnoc(was[..k], t, cutoff);
        assert was[..k + 1] == was[..k] + [t];
        if t > cutoff {
          times[kept] := t;
          kept := kept + 1;
          assert times[..kept] == times[..kept - 1] + [t];
        }
      }
      assert was[..n] == was;
      len := kept;
    }

    /** append: in place when there is room, otherwise into a larger array. */
    method Append(t: int)
      requires len <= fires.Length
      modifies this`fires, this`len, fires
      ensures len == old(len) + 1 <= fires.Length
      ensures fires[..len] == old(fires[..len]) + [t]
      ensures fires == old(fires) || fresh(fires)
    {
      if len == fires.Length {
        var larger := new int[2 * fires.Length + 1];
        for k := 0 to len
          modifies larger
          invariant larger[..k] == fires[..k]
        {
          larger[k] := fires[k];
        }
        fires := larger;
      }
      fires[len] := t;
      len := len + 1;
      assert fires[..len] == fires[..len - 1] + [t];
    }

    /**
      The bookkeeping of a fire at `now`: the slice becomes the whole history cut to
      the last ten minutes, and the breaker trips exactly when the history holds more
      than five fires in them.
      */
    method Record(now: int) returns (tripped: bool)
      requires Valid() && Before(now)
      requires !CoolingDown(history, Cooldown(rule.cooldownSec), now)
      modifies this`fires, this`len, this`history, fires
      ensures Valid() && Before(now)
      ensures history == old(history) + [now]
      ensures fires == old(fires) || fresh(fires)
      ensures fires[..len] == After(history, now - BREAKER_WINDOW)
      ensures tripped <==> TripsAt(history, |history| - 1)
      ensures Cooldown(rule.cooldownSec) >= 120 * SECOND ==> !tripped
    {
      hide Spaced, NonDecreasing, CoolingDown, After, Cooldown, TripsAt;
      var cutoff := now - BREAKER_WINDOW;
      if history != [] { AfterTwice(history, history[|history| - 1] - BREAKER_WINDOW, cutoff); }
      PruneOld(cutoff);
      Append(now);
      AfterSnoc(history, now, cutoff);
      Extended(history, now, Cooldown(rule.cooldownSec));
      history := history + [now];
      LastTrips(history);
      tripped := len > MAX_RESTARTS;
    }
  }

  lemma LastTrips(history: seq<int>)
    requires history != []
    ensures var now := history[|history| - 1];
      TripsAt(history, |history| - 1) <==> |After(history, now - BREAKER_WINDOW)| > MAX_RESTARTS
  {
    assert history[..|history|] == history;
  }

  // ---------- The watcher ----------

  /** A rule with its full history of fires. */
  datatype RuleState = RuleState(rule: LogRule, history: seq<int>)

  type Matches = (LogRule, string) -> bool

  /** The rule matches the line and is out of its cooldown. */
  predicate Ready(matches: Matches, s: RuleState, line: string, now: int) {
    matches(s.rule, line) && !CoolingDown(s.history, Cooldown(s.rule.cooldownSec), now)
  }

  predicate SomeReady(matches: Matches, states: seq<RuleState>, line: string, now: int) {
    exists s :: s in states && Ready(matches, s, line, now)
  }

  lemma NotReadyBefore(matches: Matches, s: RuleState, line: string, early: int, late: int)
    requires early <= late && !Ready(matches, s, line, late)
    ensures !Ready(matches, s, line, early)
  {
  }

  /** Whether a line can fire does not depend on the order of the rules, which comes from a map iteration. */
  lemma OrderIrrelevant(matches: Matches, states: seq<RuleState>, states': seq<RuleState>, line: string, now: int)
    requires multiset(states) == multiset(states')
    ensures SomeReady(matches, states, line, now) <==> SomeReady(matches, states', line, now)
  {
    assert forall s :: s in states <==> s in multiset(states);
    assert forall s :: s in states' <==> s in multiset(states');
  }

  /** The state after the rule at `k` fired at `now`: no other rule changes. */
  function Fired(states: seq<RuleState>, k: nat, now: int): seq<RuleState>
    requires k < |states|
  {
    states[k := states[k].(history := states[k].history + [now])]
  }

  /** What the last fire of a rule reports to the breaker hook. */
  function Reported(s: RuleState): seq<Id> {
    if s.history != [] && TripsAt(s.history, |s.history| - 1) then [s.rule.id] else []
  }

  function TotalFires(states: seq<RuleState>): nat {
    if states == [] then 0 else TotalFires(states[..|states| - 1]) + |states[|states| - 1].history|
  }

  lemma {:induction false} FiredAddsOne(states: seq<RuleState>, k: nat, now: int)
    requires k < |states|
    ensures TotalFires(Fired(states, k, now)) == TotalFires(states) + 1
  {
    var n := |states| - 1;
    if k < n {
      FiredAddsOne(states[..n], k, now);
      assert Fired(states, k, now)[..n] == Fired(states[..n], k, now);
    } else {
      assert Fired(states, k, now)[..n] == states[..n];
    }
  }

  class Watcher {
    const container: string
    const rules: seq<CompiledRule>
    const matches: Matches
    const clock: Clock
    var tripped: seq<Id>   // the rules reported to onBreakerTrip

    constructor (container: string, rules: seq<CompiledRule>, matches: Matches, clock: Clock)
      requires forall j, k :: 0 <= j < |rules| && 0 <= k < |rules| && j != k ==>
        rules[j] != rules[k] && rules[j].fires != rules[k].fires
      requires forall k :: 0 <= k < |rules| ==> rules[k].Valid() && rules[k].history == []
      ensures Valid() && this.rules == rules && this.clock == clock && this.matches == matches && tripped == []
      ensures TotalFires(States()) == 0
    {
      this.container, this.rules, this.matches, this.clock := container, rules, matches, clock;
      tripped := [];
      new;
      NoFires(States());
    }

    ghost predicate Sound()
      reads clock, rules, set r | r in rules :: r.fires
    {
      && (forall j, k :: 0 <= j < |rules| && 0 <= k < |rules| && j != k ==>
            rules[j] != rules[k] && rules[j].fires != rules[k].fires)
      && (forall k :: 0 <= k < |rules| ==> rules[k].Valid() && rules[k].Before(clock.time))
    }

    ghost predicate Valid()
      reads this, clock, rules, set r | r in rules :: r.fires
    {
      && Sound()
      && (forall k :: 0 <= k < |rules| && rules[k].rule.id !in tripped ==> NeverTripped(rules[k].history))
    }

    /**
      The rate bound in a watcher's life: a rule that has not been reported to the
      breaker hook fired at most five times in every ten-minute interval, and at most
      five times per ten minutes begun in any span.
      */
    lemma RateUntilReported(k: nat, from: int, span: nat)
      requires Valid() && k < |rules| && rules[k].rule.id !in tripped
      ensures Count(rules[k].history, from, from + BREAKER_WINDOW) <= MAX_RESTARTS
      ensures Count(rules[k].history, from, from + span) <= MAX_RESTARTS * CeilDiv(span, BREAKER_WINDOW)
    {
      RateBound(rules[k].history, from);
      SpanBound(rules[k].history, from, span);
    }

    /** For a rule already reported: its fires before the first that tripped obey the same bounds. */
    lemma RateUntilFirstTrip(k: nat, n: nat, from: int, span: nat)
      requires Valid() && k < |rules| && n <= |rules[k].history|
      requires forall i :: 0 <= i < n ==> !TripsAt(rules[k].history, i)
      ensures Count(rules[k].history[..n], from, from + BREAKER_WINDOW) <= MAX_RESTARTS
      ensures Count(rules[k].history[..n], from, from + span) <= MAX_RESTARTS * CeilDiv(span, BREAKER_WINDOW)
    {
      var before := rules[k].history[..n];
      forall i | 0 <= i < n ensures !TripsAt(before, i) {
        assert before[..i + 1] == rules[k].history[..i + 1] && !TripsAt(rules[k].history, i);
      }
      RateBound(before, from);
      SpanBound(before, from, span);
    }

    /** The same from the cooldown alone, reported or not: at most one fire per cooldown begun in any ten minutes. */
    lemma RateByCooldown(k: nat, from: int)
      requires Valid() && k < |rules| && Cooldown(rules[k].rule.cooldownSec) > 0
      ensures Count(rules[k].history, from, from + BREAKER_WINDOW)
           <= CeilDiv(BREAKER_WINDOW, Cooldown(rules[k].rule.cooldownSec))
    {
      CooldownRate(rules[k].history, from, Cooldown(rules[k].rule.cooldownSec));
    }

    ghost function States(): (states: seq<RuleState>)
      reads rules
      ensures |states| == |rules|
    {
      seq(|rules|, k requires 0 <= k < |rules| reads rules => RuleState(rules[k].rule, rules[k].history))
    }

    /**
      Tests the rules against a line in order and fires at most one.  The clock is
      read at each matching rule, so a rule that stays silent was still cooling down
      when the line came in, and the one that fires is out of its cooldown at the
      reading it fires at; with a clock that stands still meanwhile, the line fires
      exactly when some rule is ready.
      */
    method Evaluate(line: string) returns (fired: bool, ghost which: nat)
      requires Valid()
      modifies this`tripped, clock, rules, set r | r in rules :: r.fires
      ensures Valid() && clock.time >= old(clock.time)
      ensures forall k :: 0 <= k < |rules| ==> rules[k].fires == old(rules[k].fires) || fresh(rules[k].fires)
      ensures fired ==> which < |rules| && Ready(matches, old(States())[which], line, clock.time)
      ensures fired ==> States() == Fired(old(States()), which, clock.time)
      ensures fired ==> forall k :: 0 <= k < which ==> !Ready(matches, old(States())[k], line, old(clock.time))
      ensures fired ==> tripped == old(tripped) + Reported(States()[which])
      ensures !fired ==> States() == old(States()) && tripped == old(tripped)
      ensures !fired ==> !SomeReady(matches, old(States()), line, old(clock.time))
      ensures clock.time == old(clock.time) ==> (fired <==> SomeReady(matches, old(States()), line, clock.time))
      // A fire needs a match and a last fire at least a cooldown ago; without one every matching rule's was too recent.
      ensures fired ==> matches(rules[which].rule, line) && var h := old(rules[which].history);
        h == [] || clock.time - h[|h| - 1] >= Cooldown(rules[which].rule.cooldownSec)
      ensures !fired ==> forall k :: 0 <= k < |rules| && matches(rules[k].rule, line) ==> var h := old(rules[k].history);
        h != [] && old(clock.time) - h[|h| - 1] < Cooldown(rules[k].rule.cooldownSec)
      // One fire at the reading it fires at, reported exactly when it is at least the sixth within ten minutes.
      ensures forall k :: 0 <= k < |rules| ==>
        rules[k].history == old(rules[k].history) + if fired && k == which then [clock.time] else []
      ensures tripped == old(tripped) +
        if fired && Count(rules[which].history, clock.time - BREAKER_WINDOW + 1, clock.time + 1) >= 6
        then [rules[which].rule.id] else []
    {
      hide Watcher.Valid, Watcher.States, Ready, Reported, Fired;
      which := 0;
      for k := 0 to |rules|
        invariant Valid() && clock.time >= old(clock.time)
        invariant States() == old(States()) && tripped == old(tripped)
        invariant forall j :: 0 <= j < |rules| ==>
          rules[j].fires == old(rules[j].fires) && rules[j].history == old(rules[j].history)
        invariant forall j :: 0 <= j < k && matches(rules[j].rule, line) ==> var h := old(rules[j].history);
          h != [] && old(clock.time) - h[|h| - 1] < Cooldown(rules[j].rule.cooldownSec)
        invariant forall j :: 0 <= j < k ==> !Ready(matches, States()[j], line, old(clock.time))
      {
        ghost var start := clock.time;
        fired := TestRule(k, line);
        if fired { return true, k; }
        NotReadyBefore(matches, States()[k], line, old(clock.time), start);
      }
      fired := false;
    }

    /** One rule against a line. */
    method TestRule(k: nat, line: string) returns (fired: bool)
      requires Valid() && k < |rules|
      modifies this`tripped, clock, rules[k], rules[k].fires
      ensures Valid() && clock.time >= old(clock.time)
      ensures forall j :: 0 <= j < |rules| ==> rules[j].fires == old(rules[j].fires) || fresh(rules[j].fires)
      ensures fired ==> Ready(matches, old(States())[k], line, clock.time)
      ensures fired ==> States() == Fired(old(States()), k, clock.time) && tripped == old(tripped) + Reported(States()[k])
      ensures !fired ==> States() == old(States()) && tripped == old(tripped)
      ensures !fired ==> forall j :: 0 <= j < |rules| ==> rules[j].fires == old(rules[j].fires)
      ensures !fired ==> !Ready(matches, old(States())[k], line, old(clock.time))
      ensures clock.time == old(clock.time) ==> (fired <==> Ready(matches, old(States())[k], line, clock.time))
      ensures fired ==> matches(rules[k].rule, line) && var h := old(rules[k].history);
        h == [] || clock.time - h[|h| - 1] >= Cooldown(rules[k].rule.cooldownSec)
      ensures !fired && matches(rules[k].rule, line) ==> var h := old(rules[k].history);
        h != [] && old(clock.time) - h[|h| - 1] < Cooldown(rules[k].rule.cooldownSec)
      ensures forall j :: 0 <= j < |rules| ==>
        rules[j].history == old(rules[j].history) + if fired && j == k then [clock.time] else []
      ensures tripped == old(tripped) +
        if fired && Count(rules[k].history, clock.time - BREAKER_WINDOW + 1, clock.time + 1) >= 6
        then [rules[k].rule.id] else []
    {
      hide Watcher.Valid, CompiledRule.Valid, Reported, Fired, Count, NonDecreasing, TripsAt, Cooldown;
      if !matches(rules[k].rule, line) { return false; }
      var now := ReadClock();
      EachValid(k);
      var cooling := rules[k].InCooldown(now);
      if cooling { return false; }
      FireRule(k, now);
      fired := true;
    }

    /** time.Now: the rules stay as they are. */
    method ReadClock() returns (now: int)
      requires Valid()
      modifies clock
      ensures Valid() && Sound() && now == clock.time >= old(clock.time)
      ensures States() == old(States())
    {
      hide CompiledRule.Valid, NeverTripped;
      now := clock.Now();
    }

    lemma EachValid(k: nat)
      requires Sound() && k < |rules|
      ensures rules[k].Valid() && NonDecreasing(rules[k].history)
    {
    }

    /** fire: restart the container (whose failure is only logged) and keep the breaker's books. */
    method FireRule(k: nat, now: int)
      requires Valid() && k < |rules| && now == clock.time
      requires !CoolingDown(rules[k].history, Cooldown(rules[k].rule.cooldownSec), now)
      modifies this`tripped, rules[k], rules[k].fires
      ensures Valid()
      ensures States() == Fired(old(States()), k, now)
      ensures forall j :: 0 <= j < |rules| ==> rules[j].fires == old(rules[j].fires) || fresh(rules[j].fires)
      ensures tripped == old(tripped) + Reported(States()[k])
      ensures forall j :: 0 <= j < |rules| ==> rules[j].history == old(rules[j].history) + if j == k then [now] else []
      ensures tripped == old(tripped) +
        if Count(rules[k].history, now - BREAKER_WINDOW + 1, now + 1) >= 6 then [rules[k].rule.id] else []
    {
      hide Watcher.Sound, CompiledRule.Valid, TripsAt, NeverTripped, NonDecreasing, Count;
      ghost var before := States();
      var trips := RecordRule(k, now);
      assert forall j :: 0 <= j < |rules| ==> rules[j].history == States()[j].history;
      if rules[k].rule.id !in tripped && !trips { NeverTrippedSnoc(before[k].history, now); }
      EachValid(k);
      TripMeansSixFires(rules[k].history, |rules[k].history| - 1);
      assert rules[k].history[..|rules[k].history|] == rules[k].history;
      if trips { tripped := tripped + [rules[k].rule.id]; }
    }

    method RecordRule(k: nat, now: int) returns (trips: bool)
      requires Sound() && k < |rules| && now == clock.time
      requires !CoolingDown(rules[k].history, Cooldown(rules[k].rule.cooldownSec), now)
      modifies rules[k], rules[k].fires
      ensures Sound()
      ensures States() == Fired(old(States()), k, now)
      ensures forall j :: 0 <= j < |rules| ==> rules[j].fires == old(rules[j].fires) || fresh(rules[j].fires)
      ensures trips <==> TripsAt(old(rules[k].history) + [now], |old(rules[k].history)|)
    {
      hide CompiledRule.Valid, TripsAt;
      ghost var before := States();
      trips := rules[k].Record(now);
      forall j | 0 <= j < |rules| && j != k
        ensures rules[j].Valid() && rules[j].Before(clock.time) && States()[j] == before[j]
      {
        assert rules[j] != rules[k] && rules[j].fires != old(rules[k].fires);
      }
      assert States()[k] == Fired(before, k, now)[k];
      assert States() == Fired(before, k, now);
    }

    /** Reads lines until one fires or the stream ends or the context is cancelled; what it reads is told by `Reads`. */
    method Consume(lines: seq<string>, cancelAfter: nat) returns (restarted: bool, ghost r: Reading)
      requires Valid()
      modifies this`tripped, clock, rules, set r | r in rules :: r.fires
      ensures Valid()
      ensures forall k :: 0 <= k < |rules| ==> rules[k].fires == old(rules[k].fires) || fresh(rules[k].fires)
      ensures restarted == r.restarted && Reads(matches, old(States()), States(), lines, cancelAfter, r)
      ensures r.marks[0] == old(clock.time) && r.marks[r.read] == clock.time
      ensures !restarted ==> tripped == old(tripped)
      ensures restarted ==> tripped == old(tripped) + Reported(States()[r.which])
      // The last line read on a restart matches the rule that fires, out of its cooldown; no earlier line found such a rule.
      ensures restarted ==> r.read > 0 && r.which < |rules| && matches(rules[r.which].rule, lines[r.read - 1])
      ensures restarted ==> var h := old(rules[r.which].history);
        h == [] || clock.time - h[|h| - 1] >= Cooldown(rules[r.which].rule.cooldownSec)
      ensures forall j, k :: (0 <= j < (if restarted then r.read - 1 else r.read) && 0 <= k < |rules|
                              && matches(rules[k].rule, lines[j])) ==>
        var h := old(rules[k].history); h != [] && r.marks[j] - h[|h| - 1] < Cooldown(rules[k].rule.cooldownSec)
      ensures !restarted ==> r.read == |lines| || r.read == cancelAfter
    {
      hide Watcher.Valid, Watcher.States, Ready, SomeReady, Fired, Reported, Count, Cooldown, NonDecreasing;
      StartsInOrder(clock.time);
      var read := 0;
      ghost var marks := [clock.time];
      while read < |lines|
        invariant read <= |lines| && read <= cancelAfter && |marks| == read + 1 && NonDecreasing(marks)
        invariant Valid() && States() == old(States()) && tripped == old(tripped)
        invariant marks[0] == old(clock.time) && marks[read] == clock.time
        invariant forall k :: 0 <= k < |rules| ==> rules[k].fires == old(rules[k].fires) || fresh(rules[k].fires)
        invariant forall j :: 0 <= j < read ==> !SomeReady(matches, old(States()), lines[j], marks[j])
        invariant forall k :: 0 <= k < |rules| ==> rules[k].history == old(rules[k].history)
        invariant forall j, k :: 0 <= j < read && 0 <= k < |rules| && matches(rules[k].rule, lines[j]) ==>
          var h := old(rules[k].history); h != [] && marks[j] - h[|h| - 1] < Cooldown(rules[k].rule.cooldownSec)
      {
        if read == cancelAfter { return false, Reading(false, read, marks, 0); }
        var fired, k := Evaluate(lines[read]);
        StaysInOrder(marks, clock.time);
        read, marks := read + 1, marks + [clock.time];
        if fired { return true, Reading(true, read, marks, k); }
      }
      return false, Reading(false, read, marks, 0);
    }

    /**
      The attach loop over the outcomes of successive attach attempts: the streams that
      could be attached are read one after the other, each from the state the previous
      one left, up to the first that is cancelled; each causes at most one fire.
      */
    method Run(attempts: seq<Attach>)
      returns (attaches: nat, fires: nat, ghost trace: seq<Reading>, ghost states: seq<seq<RuleState>>)
      requires Valid()
      modifies this`tripped, clock, rules, set r | r in rules :: r.fires
      ensures Valid()
      ensures TotalFires(States()) == TotalFires(old(States())) + fires
      ensures fires <= attaches == |trace| <= |Streams(attempts)|
      ensures |states| == attaches + 1 && states[0] == old(States()) && states[attaches] == States()
      ensures forall k :: 0 <= k < attaches ==>
        Reads(matches, states[k], states[k + 1], Streams(attempts)[k].lines, Streams(attempts)[k].cancelAfter, trace[k])
      ensures forall k :: 0 <= k < attaches - 1 ==> !Cancelled(Streams(attempts)[k], trace[k])
      ensures attaches < |Streams(attempts)| ==> attaches > 0 && Cancelled(Streams(attempts)[attaches - 1], trace[attaches - 1])
    {
      hide Watcher.Valid, Watcher.States, Reads, Cancelled, TotalFires, Streams;
      hide Fired, Reported, Cooldown, NonDecreasing;
      NoStreams();
      attaches, fires := 0, 0;
      trace, states := [], [States()];
      for k := 0 to |attempts|
        invariant Valid()
        invariant forall j :: 0 <= j < |rules| ==> rules[j].fires == old(rules[j].fires) || fresh(rules[j].fires)
        invariant TotalFires(States()) == TotalFires(old(States())) + fires
        invariant fires <= attaches == |trace| == |Streams(attempts[..k])|
        invariant |states| == attaches + 1 && states[0] == old(States()) && states[attaches] == States()
        invariant forall j :: 0 <= j < attaches ==>
          && Reads(matches, states[j], states[j + 1],
                   Streams(attempts[..k])[j].lines, Streams(attempts[..k])[j].cancelAfter, trace[j])
          && !Cancelled(Streams(attempts[..k])[j], trace[j])
      {
        StreamsSnoc(attempts, k);
        match attempts[k]
        case Unavailable =>
        case Stream(lines, cancelAfter) =>
          ghost var before := States();
          var restarted, r := Consume(lines, cancelAfter);
          attaches, trace, states := attaches + 1, trace + [r], states + [States()];
          StreamRead(matches, before, States(), lines, cancelAfter, r);
          if restarted {
            fires := fires + 1;
          } else if cancelAfter < |lines| {
            return;
          }
      }
      assert attempts[..|attempts|] == attempts;
    }
  }

  /** One stream's reading: how many lines, the clock readings around them, and the rule that fired at the last. */
  datatype Reading = Reading(restarted: bool, read: nat, marks: seq<int>, which: nat)

  /**
    Reading a stream fires at the first line that finds a rule ready and reads nothing
    after it: every earlier line found none ready when it came in.  Without a fire the
    stream is read to its end, or to its cancellation.
    */
  ghost predicate Reads(matches: Matches, was: seq<RuleState>, now: seq<RuleState>, lines: seq<string>,
                        cancelAfter: nat, r: Reading)
  {
    && r.read <= |lines| && r.read <= cancelAfter && |r.marks| == r.read + 1 && NonDecreasing(r.marks)
    && (forall j :: 0 <= j < r.read && (r.restarted ==> j < r.read - 1) ==> !SomeReady(matches, was, lines[j], r.marks[j]))
    && (if r.restarted
        then
          && r.read > 0 && r.which < |was| && Ready(matches, was[r.which], lines[r.read - 1], r.marks[r.read])
          && now == Fired(was, r.which, r.marks[r.read])
        else now == was && (r.read == |lines| || r.read == cancelAfter))
  }

  /**
    What a stream's reading means in terms of matches and times alone: the last line
    read on a restart matches the rule that fired, whose last fire was at least a
    cooldown ago; and whatever rule an earlier line matched had fired too recently.
    */
  lemma ReadingMeans(matches: Matches, was: seq<RuleState>, now: seq<RuleState>, lines: seq<string>,
                     cancelAfter: nat, r: Reading)
    requires Reads(matches, was, now, lines, cancelAfter, r)
    ensures r.restarted ==> r.read > 0 && r.which < |was| && matches(was[r.which].rule, lines[r.read - 1])
    ensures r.restarted ==> var h := was[r.which].history;
      h == [] || r.marks[r.read] - h[|h| - 1] >= Cooldown(was[r.which].rule.cooldownSec)
    ensures forall j, k :: (0 <= j < (if r.restarted then r.read - 1 else r.read) && 0 <= k < |was|
                            && matches(was[k].rule, lines[j])) ==>
      var h := was[k].history; h != [] && r.marks[j] - h[|h| - 1] < Cooldown(was[k].rule.cooldownSec)
    ensures !r.restarted ==> now == was
    ensures r.restarted ==> forall k :: 0 <= k < |was| && k != r.which ==> k < |now| && now[k] == was[k]
    ensures r.restarted ==>
      |now| == |was| && now[r.which] == RuleState(was[r.which].rule, was[r.which].history + [r.marks[r.read]])
  {
    forall j, k | 0 <= j < (if r.restarted then r.read - 1 else r.read) && 0 <= k < |was|
      ensures !Ready(matches, was[k], lines[j], r.marks[j])
    {
      assert !SomeReady(matches, was, lines[j], r.marks[j]) && was[k] in was;
    }
  }

  predicate Cancelled(s: Attach, r: Reading)
    requires s.Stream?
  {
    !r.restarted && s.cancelAfter < |s.lines|
  }

  lemma StreamRead(matches: Matches, was: seq<RuleState>, now: seq<RuleState>, lines: seq<string>, cancelAfter: nat, r: Reading)
    requires Reads(matches, was, now, lines, cancelAfter, r)
    ensures TotalFires(now) == TotalFires(was) + if r.restarted then 1 else 0
    ensures Cancelled(Stream(lines, cancelAfter), r) <==> !r.restarted && cancelAfter < |lines|
  {
    hide TotalFires, Fired;
    if r.restarted { FiredAddsOne(was, r.which, r.marks[r.read]); }
  }

  /** The attempts that attached. */
  function Streams(attempts: seq<Attach>): (streams: seq<Attach>)
    ensures forall s :: s in streams ==> s.Stream?
  {
    if attempts == [] then []
    else
      var last := attempts[|attempts| - 1];
      Streams(attempts[..|attempts| - 1]) + if last.Stream? then [last] else []
  }

  lemma StartsInOrder(t: int)
    ensures NonDecreasing([t])
  {
  }

  lemma StaysInOrder(marks: seq<int>, t: int)
    requires NonDecreasing(marks) && marks != [] && marks[|marks| - 1] <= t
    ensures NonDecreasing(marks + [t])
  {
  }

  lemma NoStreams()
    ensures Streams([]) == []
  {
  }

  lemma StreamsSnoc(attempts: seq<Attach>, k: nat)
    requires k < |attempts|
    ensures Streams(attempts[..k + 1]) == Streams(attempts[..k]) + if attempts[k].Stream? then [attempts[k]] else []
    ensures Streams(attempts[..k + 1]) <= Streams(attempts)
    decreases |attempts| - k
  {
    assert attempts[..k + 1][..k] == attempts[..k];
    if k + 1 < |attempts| { StreamsSnoc(attempts, k + 1); } else { assert attempts[..k + 1] == attempts; }
  }

  /** FollowLogs fails, or yields a stream that ends by itself unless the context is cancelled first. */
  datatype Attach = Unavailable | Stream(lines: seq<string>, cancelAfter: nat)

  lemma {:induction false} NoFires(states: seq<RuleState>)
    requires forall s :: s in states ==> s.history == []
    ensures TotalFires(states) == 0
  {
    if states != [] { NoFires(states[..|states| - 1]); }
  }

  /** A fire out of cooldown extends the history; with two minutes of cooldown it cannot trip the breaker. */
  lemma Extended(history: seq<int>, now: int, cooldown: int)
    requires NonDecreasing(history) && Spaced(history, cooldown) && !CoolingDown(history, cooldown, now)
    requires forall k :: 0 <= k < |history| ==> history[k] <= now
    ensures NonDecreasing(history + [now]) && Spaced(history + [now], cooldown)
    ensures cooldown >= 120 * SECOND ==> !TripsAt(history + [now], |history|)
  {
    if cooldown >= 120 * SECOND {
      CooldownForbidsTrips(history + [now], cooldown);
    }
  }
}
