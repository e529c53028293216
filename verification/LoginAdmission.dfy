/** Exactly which arriving logins the throttle admits, over all interleavings. */
module LoginAdmission {
  import opened LoginThrottleModel

  /** The recorded failures of the key since its last success that are younger than the cutoff. */
  function LiveFailures(history: seq<Entry>, key: Key, cutoff: real): set<nat> {
    set i: nat | && i < |history| && history[i].Failure? && history[i].key == key && history[i].time > cutoff
                 && Success(key) !in history[i..]
  }

  function CountAfter(times: seq<real>, cutoff: real): nat {
    if times == [] then 0
    else CountAfter(times[..|times| - 1], cutoff) + if times[|times| - 1] > cutoff then 1 else 0
  }

  // ------------------------------------------------------ recorded times are in order

  ghost predicate InOrder(times: seq<real>, clock: real) {
    && (forall i, j | 0 <= i <= j < |times| :: times[i] <= times[j])
    && forall i | 0 <= i < |times| :: times[i] <= clock
  }

  ghost predicate Orderly(w: World) {
    forall key :: InOrder(Recent(w.history, key), w.clock)
  }

  lemma LaterIsInOrder(times: seq<real>, clock: real, now: real)
    requires InOrder(times, clock) && clock <= now
    ensures InOrder(times, now) && InOrder(times + [now], now) && InOrder([], now)
  {
  }

  lemma StepKeepsOrder(cfg: Config, w: World, a: Action)
    requires Orderly(w)
    ensures Orderly(Step(cfg, w, a))
  {
    hide Recent, InOrder, Entered, Admits;
    var w' := Step(cfg, w, a);
    forall key
      ensures InOrder(Recent(w'.history, key), w'.clock)
    {
      if w' != w && !a.Depart? {
        LaterIsInOrder(Recent(w.history, key), w.clock, a.now);
        if a.Fail? {
          HistoryGrows(w.history, Failure(w.logins[a.id].key, a.now), key);
        } else if a.Succeed? {
          HistoryGrows(w.history, Success(w.logins[a.id].key), key);
        }
      }
    }
  }

  lemma {:induction false} RunKeepsOrder(cfg: Config, w: World, actions: seq<Action>)
    requires Orderly(w)
    ensures Orderly(Run(cfg, w, actions))
    decreases |actions|
  {
    hide Orderly, Step;
    if actions != [] {
      StepKeepsOrder(cfg, w, actions[0]);
      RunKeepsOrder(cfg, Step(cfg, w, actions[0]), actions[1..]);
    }
  }

  // ------------------------------------------------------ pruning leaves the live failures

  lemma {:induction false} PruneStopsAtYoung(times: seq<real>, cutoff: real)
    ensures Prune(times, cutoff) != [] ==> Prune(times, cutoff)[0] > cutoff
  {
    if times != [] && times[0] <= cutoff {
      PruneStopsAtYoung(times[1..], cutoff);
    }
  }

  lemma {:induction false} CountSplits(times: seq<real>, d: nat, cutoff: real)
    requires d <= |times| && (forall i | 0 <= i < d :: times[i] <= cutoff)
    requires forall i | d <= i < |times| :: times[i] > cutoff
    ensures CountAfter(times, cutoff) == |times| - d
    decreases |times|
  {
    if times != [] {
      CountSplits(times[..|times| - 1], if d < |times| then d else d - 1, cutoff);
    }
  }

  /** What pruning leaves is as many times as there are live failures. */
  lemma PruneCounts(width: real, recent: seq<real>, kept: seq<real>, clock: real, now: real)
    requires KeepsRecent(width, recent, kept, clock) && clock <= now && InOrder(recent, clock)
    ensures |Prune(kept, now - width)| == CountAfter(recent, now - width)
  {
    hide Prune, CountAfter;
    var cutoff := now - width;
    var pruned := Prune(kept, cutoff);
    PruneKeepsRecent(width, recent, kept, clock, now);
    PruneStopsAtYoung(kept, cutoff);
    var d := |recent| - |pruned|;
    forall i | d <= i < |recent|
      ensures recent[i] > cutoff
    {
      assert pruned[0] == recent[d];
    }
    CountSplits(recent, d, cutoff);
  }

  lemma LiveGrows(front: seq<Entry>, last: Entry, key: Key, cutoff: real)
    ensures LiveFailures(front + [last], key, cutoff)
            == if last == Success(key) then {}
               else LiveFailures(front, key, cutoff)
                    + if last.Failure? && last.key == key && last.time > cutoff then {|front|} else {}
  {
    var history := front + [last];
    forall i: nat | i <= |front|
      ensures Success(key) in history[i..] <==> Success(key) in front[i..] || last == Success(key)
    {
      assert history[i..] == front[i..] + [last];
    }
  }

  lemma {:induction false} LiveIsRecent(history: seq<Entry>, key: Key, cutoff: real)
    ensures |LiveFailures(history, key, cutoff)| == CountAfter(Recent(history, key), cutoff)
  {
    if history != [] {
      var front, last := history[..|history| - 1], history[|history| - 1];
      assert history == front + [last];
      LiveIsRecent(front, key, cutoff);
      LiveGrows(front, last, key, cutoff);
      HistoryGrows(front, last, key);
      CountGrows(Recent(front, key), if last.Failure? then last.time else 0.0, cutoff);
      hide Recent, CountAfter;
    }
  }

  lemma CountGrows(times: seq<real>, t: real, cutoff: real)
    ensures CountAfter(times + [t], cutoff) == CountAfter(times, cutoff) + if t > cutoff then 1 else 0
    ensures CountAfter([], cutoff) == 0
  {
    assert (times + [t])[..|times|] == times;
  }

  // ------------------------------------------------------------- main result

  /**
    Over all interleavings a login is admitted if and only if a slot is free and
    its key has fewer than `max_failures` failures, since its last success, that
    are younger than the window.
   */
  lemma AdmittedExactly(cfg: Config, start: real, actions: seq<Action>, id: LoginId, key: Key, now: real)
    requires var w := Run(cfg, Opening(cfg, start), actions); id !in w.logins && now >= w.clock
    ensures var w := Run(cfg, Opening(cfg, start), actions);
            id in Step(cfg, w, Arrive(id, key, now)).logins
            <==> |w.logins| < cfg.maxConcurrent && |LiveFailures(w.history, key, now - cfg.window)| < cfg.maxFailures
  {
    hide Run, Recent, Prune, CountAfter, LiveFailures, Within, PrefixesWithin, KeepsRecent;
    OpeningIsFine(cfg, start);
    OpeningIsOrderly(cfg, start);
    RunKeeps(cfg, Opening(cfg, start), actions);
    RunKeepsOrder(cfg, Opening(cfg, start), actions);
    var w := Run(cfg, Opening(cfg, start), actions);
    assert Remembers(cfg, w, key);
    PruneCounts(cfg.window, Recent(w.history, key), Times(w.gate, key), w.clock, now);
    LiveIsRecent(w.history, key, now - cfg.window);
  }

  lemma OpeningIsOrderly(cfg: Config, start: real)
    ensures Orderly(Opening(cfg, start))
  {
  }
}
