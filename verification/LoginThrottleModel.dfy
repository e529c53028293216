/**
  The login throttle: a sliding window of failures per key and a bounded number
  of concurrent attempts over all keys.
 */
module LoginThrottleModel {
  import opened Wrappers

  datatype Config = Config(maxFailures: int, window: real, maxConcurrent: nat)

  /** Client host and user name, as one text. */
  datatype Key = Key(text: string)

  /** The recorded failure times per key and the number of free slots. */
  datatype Gate = Gate(attempts: map<Key, seq<real>>, free: nat)

  function Times(g: Gate, key: Key): seq<real> {
    if key in g.attempts then g.attempts[key] else []
  }

  /** Drops the times at the front that are not after the cutoff. */
  function Prune(times: seq<real>, cutoff: real): seq<real> {
    if times != [] && times[0] <= cutoff then Prune(times[1..], cutoff) else times
  }

  function Pruned(cfg: Config, g: Gate, key: Key, now: real): Gate {
    g.(attempts := g.attempts[key := Prune(Times(g, key), now - cfg.window)])
  }

  predicate Admits(cfg: Config, g: Gate, key: Key, now: real) {
    g.free > 0 && |Prune(Times(g, key), now - cfg.window)| < cfg.maxFailures
  }

  function Entered(cfg: Config, g: Gate, key: Key, now: real): Gate {
    if g.free == 0 then g
    else if Admits(cfg, g, key, now) then Pruned(cfg, g, key, now).(free := g.free - 1)
    else Pruned(cfg, g, key, now)
  }

  class LoginThrottle {
    const cfg: Config
    var attempts: map<Key, seq<real>>
    var slots: nat

    function State(): Gate
      reads this
    {
      Gate(attempts, slots)
    }

    constructor (cfg: Config)
      ensures this.cfg == cfg && State() == Gate(map[], cfg.maxConcurrent)
    {
      this.cfg, attempts, slots := cfg, map[], cfg.maxConcurrent;
    }

    /** Entering the context manager; a refused attempt gives its slot back. */
    method Enter(key: Key, now: real) returns (admitted: bool)
      modifies this
      ensures admitted == Admits(cfg, old(State()), key, now)
      ensures State() == Entered(cfg, old(State()), key, now)
    {
      if slots == 0 {
        return false;
      }
      slots := slots - 1;
      var times := if key in attempts then attempts[key] else [];
      var cutoff := now - cfg.window;
      while times != [] && times[0] <= cutoff
        invariant Prune(times, cutoff) == Prune(Times(old(State()), key), cutoff)
      {
        times := times[1..];
      }
      attempts := attempts[key := times];
      if |times| >= cfg.maxFailures {
        slots := slots + 1;
        return false;
      }
      return true;
    }

    /** Leaving the context manager. */
    method Leave()
      requires slots < cfg.maxConcurrent
      modifies this`slots
      ensures State() == old(State()).(free := old(State()).free + 1)
    {
      slots := slots + 1;
    }

    method RecordFailure(key: Key, now: real)
      modifies this`attempts
      ensures State() == old(State()).(attempts := old(attempts)[key := Times(old(State()), key) + [now]])
    {
      attempts := attempts[key := (if key in attempts then attempts[key] else []) + [now]];
    }

    method RecordSuccess(key: Key)
      modifies this`attempts
      ensures State() == old(State()).(attempts := old(attempts) - {key})
    {
      attempts := attempts - {key};
    }
  }

  // ------------------------------------------------------ interleaved logins

  type LoginId = nat
  datatype Login = Login(key: Key, recorded: bool)
  datatype Entry = Failure(key: Key, time: real) | Success(key: Key)

  /** `history` lists every recorded failure and success in order. */
  datatype World = World(gate: Gate, logins: map<LoginId, Login>, clock: real, history: seq<Entry>)

  datatype Action =
    | Arrive(id: LoginId, key: Key, now: real)
    | Fail(id: LoginId, now: real)
    | Succeed(id: LoginId, now: real)
    | Depart(id: LoginId)

  /** A login records at most one failure, and only while it holds a slot; clocks never run backwards. */
  function Step(cfg: Config, w: World, a: Action): World {
    match a
    case Arrive(id, key, now) =>
      if id in w.logins || now < w.clock then w
      else if Admits(cfg, w.gate, key, now)
      then World(Entered(cfg, w.gate, key, now), w.logins[id := Login(key, false)], now, w.history)
      else World(Entered(cfg, w.gate, key, now), w.logins, now, w.history)
    case Fail(id, now) =>
      if id !in w.logins || w.logins[id].recorded || now < w.clock then w
      else
        var key := w.logins[id].key;
        World(w.gate.(attempts := w.gate.attempts[key := Times(w.gate, key) + [now]]),
              w.logins[id := Login(key, true)], now, w.history + [Failure(key, now)])
    case Succeed(id, now) =>
      if id !in w.logins || w.logins[id].recorded || now < w.clock then w
      else
        var key := w.logins[id].key;
        World(w.gate.(attempts := w.gate.attempts - {key}), w.logins[id := Login(key, true)], now,
              w.history + [Success(key)])
    case Depart(id) =>
      if id !in w.logins then w
      else w.(gate := w.gate.(free := w.gate.free + 1), logins := w.logins - {id})
  }

  function Run(cfg: Config, w: World, actions: seq<Action>): World
    decreases |actions|
  {
    if actions == [] then w else Run(cfg, Step(cfg, w, actions[0]), actions[1..])
  }

  function Opening(cfg: Config, now: real): World {
    World(Gate(map[], cfg.maxConcurrent), map[], now, [])
  }

  // ------------------------------------------------------------ window counts

  /** The failure times of a key since its last success. */
  function Recent(history: seq<Entry>, key: Key): seq<real> {
    if history == [] then []
    else
      var last, front := history[|history| - 1], history[..|history| - 1];
      match last
      case Failure(k, t) => Recent(front, key) + if k == key then [t] else []
      case Success(k) => if k == key then [] else Recent(front, key)
  }

  /** How many of the times lie in the half-open window starting at `u`. */
  function InWindow(times: seq<real>, u: real, width: real): nat {
    if times == [] then 0
    else
      var last := times[|times| - 1];
      InWindow(times[..|times| - 1], u, width) + if u <= last < u + width then 1 else 0
  }

  function Bound(cfg: Config): nat {
    if cfg.maxFailures >= 1 && cfg.maxConcurrent >= 1 then cfg.maxFailures + cfg.maxConcurrent - 1 else 0
  }

  /** The logins of a key that hold a slot and have not recorded anything yet. */
  function Undecided(w: World, key: Key): set<LoginId> {
    set id | id in w.logins && w.logins[id].key == key && !w.logins[id].recorded
  }

  /** `kept` is `recent` without some leading times that are out of every window still open. */
  ghost predicate KeepsRecent(width: real, recent: seq<real>, kept: seq<real>, clock: real) {
    && |kept| <= |recent| && kept == recent[|recent| - |kept|..]
    && (forall i | 0 <= i < |recent| - |kept| :: recent[i] <= clock - width)
    && (forall i | 0 <= i < |recent| :: recent[i] <= clock)
  }

  /** The throttle remembers the recent failures, except some that are too old to matter. */
  ghost predicate Remembers(cfg: Config, w: World, key: Key) {
    KeepsRecent(cfg.window, Recent(w.history, key), Times(w.gate, key), w.clock)
  }

  ghost predicate Within(cfg: Config, w: World, key: Key, u: real) {
    && InWindow(Recent(w.history, key), u, cfg.window) <= Bound(cfg)
    && (w.clock < u + cfg.window ==>
          InWindow(Recent(w.history, key), u, cfg.window) + |Undecided(w, key)| <= Bound(cfg))
  }

  /** No window of any earlier moment ever held too many failures. */
  ghost predicate PrefixesWithin(cfg: Config, history: seq<Entry>) {
    forall key, u, j | 0 <= j <= |history| :: InWindow(Recent(history[..j], key), u, cfg.window) <= Bound(cfg)
  }

  ghost predicate Inv(cfg: Config, w: World) {
    && w.gate.free + |w.logins| == cfg.maxConcurrent
    && (forall key :: Remembers(cfg, w, key))
    && (forall key, u :: Within(cfg, w, key, u))
    && PrefixesWithin(cfg, w.history)
  }

  lemma {:induction false} PruneDropsOld(times: seq<real>, cutoff: real)
    ensures |Prune(times, cutoff)| <= |times| && Prune(times, cutoff) == times[|times| - |Prune(times, cutoff)|..]
    ensures forall i | 0 <= i < |times| - |Prune(times, cutoff)| :: times[i] <= cutoff
  {
    if times != [] && times[0] <= cutoff {
      PruneDropsOld(times[1..], cutoff);
    }
  }

  lemma {:induction false} CountAtMostLength(times: seq<real>, u: real, width: real)
    ensures InWindow(times, u, width) <= |times|
  {
    if times != [] {
      CountAtMostLength(times[..|times| - 1], u, width);
    }
  }

  /** Times before the window do not count. */
  lemma {:induction false} OldOnesDoNotCount(times: seq<real>, d: nat, u: real, width: real)
    requires d <= |times| && forall i | 0 <= i < d :: times[i] < u
    ensures InWindow(times, u, width) == InWindow(times[d..], u, width)
    decreases |times|
  {
    if times != [] {
      var front := times[..|times| - 1];
      if d < |times| {
        OldOnesDoNotCount(front, d, u, width);
        assert times[d..][..|times[d..]| - 1] == front[d..];
      } else {
        OldOnesDoNotCount(front, d - 1, u, width);
        assert front[d - 1..] == [] && times[d..] == [];
      }
    }
  }

  lemma NoTimesNoCount(u: real, width: real)
    ensures InWindow([], u, width) == 0
  {
  }

  lemma CountOneMore(times: seq<real>, t: real, u: real, width: real)
    ensures InWindow(times + [t], u, width) == InWindow(times, u, width) + if u <= t < u + width then 1 else 0
  {
    assert (times + [t])[..|times|] == times;
  }

  lemma PruneKeepsRecent(width: real, recent: seq<real>, kept: seq<real>, clock: real, now: real)
    requires KeepsRecent(width, recent, kept, clock) && clock <= now
    ensures KeepsRecent(width, recent, kept, now)
    ensures KeepsRecent(width, recent, Prune(kept, now - width), now)
  {
    hide Prune;
    PruneDropsOld(kept, now - width);
    var pruned := Prune(kept, now - width);
    assert pruned == recent[|recent| - |pruned|..];
    forall i | 0 <= i < |recent| - |pruned|
      ensures recent[i] <= now - width
    {
      if i >= |recent| - |kept| {
        assert recent[i] == kept[i - (|recent| - |kept|)];
      }
    }
  }

  /** While a window is still open, every failure in it is still remembered. */
  lemma OpenWindowIsRemembered(cfg: Config, w: World, key: Key, now: real, u: real)
    requires Remembers(cfg, w, key) && w.clock <= now < u + cfg.window
    ensures InWindow(Recent(w.history, key), u, cfg.window) <= |Prune(Times(w.gate, key), now - cfg.window)|
  {
    hide Recent, Prune, InWindow;
    var recent, kept := Recent(w.history, key), Times(w.gate, key);
    var pruned := Prune(kept, now - cfg.window);
    PruneKeepsRecent(cfg.window, recent, kept, w.clock, now);
    OldOnesDoNotCount(recent, |recent| - |pruned|, u, cfg.window);
    CountAtMostLength(pruned, u, cfg.window);
  }

  lemma HistoryGrows(history: seq<Entry>, e: Entry, key: Key)
    ensures e.key != key ==> Recent(history + [e], key) == Recent(history, key)
    ensures e.key == key && e.Failure? ==> Recent(history + [e], key) == Recent(history, key) + [e.time]
    ensures e == Success(key) ==> Recent(history + [e], key) == []
  {
    assert (history + [e])[..|history|] == history;
  }

  lemma PrefixesOf(history: seq<Entry>, e: Entry)
    ensures forall j | 0 <= j <= |history| :: (history + [e])[..j] == history[..j]
    ensures (history + [e])[..|history| + 1] == history + [e]
  {
  }

  lemma UndecidedFit(w: World, key: Key)
    ensures |Undecided(w, key)| <= |w.logins|
  {
    SubsetSize(Undecided(w, key), w.logins.Keys);
  }

  lemma ArriveRemembers(cfg: Config, w: World, id: LoginId, key: Key, now: real, k: Key)
    requires id !in w.logins && now >= w.clock && Remembers(cfg, w, k)
    ensures Remembers(cfg, Step(cfg, w, Arrive(id, key, now)), k)
  {
    hide Recent, Prune, KeepsRecent;
    PruneKeepsRecent(cfg.window, Recent(w.history, k), Times(w.gate, k), w.clock, now);
  }

  /** The decisive step: an admission leaves room for everyone who now holds a slot. */
  lemma ArriveWithin(cfg: Config, w: World, id: LoginId, key: Key, now: real, k: Key, u: real)
    requires id !in w.logins && now >= w.clock && Remembers(cfg, w, key) && Within(cfg, w, k, u)
    requires w.gate.free + |w.logins| == cfg.maxConcurrent
    ensures Within(cfg, Step(cfg, w, Arrive(id, key, now)), k, u)
  {
    hide Recent, InWindow, Remembers, Prune;
    var w' := Step(cfg, w, Arrive(id, key, now));
    if k == key && Admits(cfg, w.gate, key, now) {
      UndecidedFit(w', k);
      if now < u + cfg.window {
        OpenWindowIsRemembered(cfg, w, key, now, u);
      }
    } else {
      assert Undecided(w', k) == Undecided(w, k);
    }
  }

  lemma ArriveKeeps(cfg: Config, w: World, id: LoginId, key: Key, now: real)
    requires Inv(cfg, w)
    ensures Inv(cfg, Step(cfg, w, Arrive(id, key, now)))
  {
    var w' := Step(cfg, w, Arrive(id, key, now));
    if id !in w.logins && now >= w.clock {
      hide Recent, InWindow, Remembers, Within, PrefixesWithin;
      forall k
        ensures Remembers(cfg, w', k)
      {
        ArriveRemembers(cfg, w, id, key, now, k);
      }
      forall k, u
        ensures Within(cfg, w', k, u)
      {
        ArriveWithin(cfg, w, id, key, now, k, u);
      }
    }
  }

  lemma RecordWithin(cfg: Config, w: World, w': World, id: LoginId, now: real, k: Key, u: real)
    requires id in w.logins && !w.logins[id].recorded && now >= w.clock && w'.clock == now
    requires w'.logins == w.logins[id := Login(w.logins[id].key, true)]
    requires Within(cfg, w, k, u)
    requires k != w.logins[id].key ==> Recent(w'.history, k) == Recent(w.history, k)
    requires k == w.logins[id].key ==>
               Recent(w'.history, k) == Recent(w.history, k) + [now] || Recent(w'.history, k) == []
    requires w.gate.free + |w.logins| == cfg.maxConcurrent && |Undecided(w, k)| <= Bound(cfg)
    ensures Within(cfg, w', k, u)
  {
    hide Recent, InWindow;
    NoTimesNoCount(u, cfg.window);
    if k == w.logins[id].key {
      assert Undecided(w', k) == Undecided(w, k) - {id} && id in Undecided(w, k);
      CountOneMore(Recent(w.history, k), now, u, cfg.window);
    } else {
      assert Undecided(w', k) == Undecided(w, k);
    }
  }

  lemma UndecidedBounded(cfg: Config, w: World, k: Key)
    requires Inv(cfg, w)
    ensures |Undecided(w, k)| <= Bound(cfg)
  {
    var u := w.clock - cfg.window + 1.0;
    assert Within(cfg, w, k, u);
  }

  lemma FailRemembers(cfg: Config, w: World, id: LoginId, now: real, k: Key)
    requires id in w.logins && !w.logins[id].recorded && now >= w.clock && Remembers(cfg, w, k)
    ensures Remembers(cfg, Step(cfg, w, Fail(id, now)), k)
  {
    hide Recent, KeepsRecent, Prune;
    HistoryGrows(w.history, Failure(w.logins[id].key, now), k);
    PruneKeepsRecent(cfg.window, Recent(w.history, k), Times(w.gate, k), w.clock, now);
    KeepsOneMore(cfg.window, Recent(w.history, k), Times(w.gate, k), now);
  }

  lemma FailKeeps(cfg: Config, w: World, id: LoginId, now: real)
    requires Inv(cfg, w)
    ensures Inv(cfg, Step(cfg, w, Fail(id, now)))
  {
    var w' := Step(cfg, w, Fail(id, now));
    if id in w.logins && !w.logins[id].recorded && now >= w.clock {
      var key := w.logins[id].key;
      hide Recent, InWindow, Within, PrefixesWithin, Remembers;
      forall k
        ensures Remembers(cfg, w', k)
      {
        FailRemembers(cfg, w, id, now, k);
      }
      forall k, u
        ensures Within(cfg, w', k, u)
      {
        HistoryGrows(w.history, Failure(key, now), k);
        UndecidedBounded(cfg, w, k);
        RecordWithin(cfg, w, w', id, now, k, u);
      }
      assert w'.logins.Keys == w.logins.Keys;
      GrowPrefixes(cfg, w, w', Failure(key, now));
    }
  }

  lemma GrowPrefixes(cfg: Config, w: World, w': World, e: Entry)
    requires Inv(cfg, w) && w'.history == w.history + [e] && forall k, u :: Within(cfg, w', k, u)
    ensures PrefixesWithin(cfg, w'.history)
  {
    hide Recent, InWindow, Remembers;
    PrefixesOf(w.history, e);
    forall k, u, j | 0 <= j <= |w'.history|
      ensures InWindow(Recent(w'.history[..j], k), u, cfg.window) <= Bound(cfg)
    {
      assert Within(cfg, w', k, u);
    }
  }

  lemma KeepsOneMore(width: real, recent: seq<real>, kept: seq<real>, now: real)
    requires KeepsRecent(width, recent, kept, now)
    ensures KeepsRecent(width, recent + [now], kept + [now], now)
  {
  }

  lemma NothingKept(width: real, clock: real)
    ensures KeepsRecent(width, [], [], clock)
  {
  }

  lemma SucceedRemembers(cfg: Config, w: World, id: LoginId, now: real, k: Key)
    requires id in w.logins && !w.logins[id].recorded && now >= w.clock && Remembers(cfg, w, k)
    ensures Remembers(cfg, Step(cfg, w, Succeed(id, now)), k)
  {
    hide Recent, KeepsRecent, Prune;
    HistoryGrows(w.history, Success(w.logins[id].key), k);
    PruneKeepsRecent(cfg.window, Recent(w.history, k), Times(w.gate, k), w.clock, now);
    NothingKept(cfg.window, now);
  }

  lemma SucceedKeeps(cfg: Config, w: World, id: LoginId, now: real)
    requires Inv(cfg, w)
    ensures Inv(cfg, Step(cfg, w, Succeed(id, now)))
  {
    var w' := Step(cfg, w, Succeed(id, now));
    if id in w.logins && !w.logins[id].recorded && now >= w.clock {
      var key := w.logins[id].key;
      hide Recent, InWindow, Within, PrefixesWithin, Remembers;
      forall k
        ensures Remembers(cfg, w', k)
      {
        SucceedRemembers(cfg, w, id, now, k);
      }
      forall k, u
        ensures Within(cfg, w', k, u)
      {
        HistoryGrows(w.history, Success(key), k);
        UndecidedBounded(cfg, w, k);
        RecordWithin(cfg, w, w', id, now, k, u);
      }
      assert w'.logins.Keys == w.logins.Keys;
      GrowPrefixes(cfg, w, w', Success(key));
    }
  }

  lemma DepartKeeps(cfg: Config, w: World, id: LoginId)
    requires Inv(cfg, w)
    ensures Inv(cfg, Step(cfg, w, Depart(id)))
  {
    var w' := Step(cfg, w, Depart(id));
    if id in w.logins {
      hide Recent, InWindow, PrefixesWithin;
      forall k
        ensures Remembers(cfg, w', k)
      {
        assert Remembers(cfg, w, k);
      }
      forall k, u
        ensures Within(cfg, w', k, u)
      {
        assert Within(cfg, w, k, u);
        SubsetSize(Undecided(w', k), Undecided(w, k));
      }
    }
  }

  lemma {:induction false} RunKeeps(cfg: Config, w: World, actions: seq<Action>)
    requires Inv(cfg, w)
    ensures Inv(cfg, Run(cfg, w, actions))
    decreases |actions|
  {
    hide Inv, Step;
    if actions != [] {
      match actions[0] {
        case Arrive(id, key, now) => ArriveKeeps(cfg, w, id, key, now);
        case Fail(id, now) => FailKeeps(cfg, w, id, now);
        case Succeed(id, now) => SucceedKeeps(cfg, w, id, now);
        case Depart(id) => DepartKeeps(cfg, w, id);
      }
      RunKeeps(cfg, Step(cfg, w, actions[0]), actions[1..]);
    }
  }

  // ------------------------------------------------------------- main result

  /** The failure times of a key in a stretch of the history. */
  function FailuresOf(history: seq<Entry>, key: Key): seq<real> {
    if history == [] then []
    else
      var last := history[|history| - 1];
      FailuresOf(history[..|history| - 1], key) + if last.Failure? && last.key == key then [last.time] else []
  }

  lemma {:induction false} StretchIsRecent(history: seq<Entry>, i: nat, key: Key, u: real, width: real)
    requires i <= |history| && Success(key) !in history[i..]
    ensures InWindow(FailuresOf(history[i..], key), u, width) <= InWindow(Recent(history, key), u, width)
    decreases |history|
  {
    if i < |history| {
      var front, last := history[..|history| - 1], history[|history| - 1];
      assert history == front + [last] && history[i..] == front[i..] + [last];
      StretchIsRecent(front, i, key, u, width);
      HistoryGrows(front, last, key);
      StretchGrows(front[i..], last, key);
      hide Recent, FailuresOf, InWindow;
      if last.Failure? && last.key == key {
        CountOneMore(FailuresOf(front[i..], key), last.time, u, width);
        CountOneMore(Recent(front, key), last.time, u, width);
      } else {
        assert last in history[i..] && last != Success(key);
      }
    }
  }

  lemma StretchGrows(stretch: seq<Entry>, e: Entry, key: Key)
    ensures FailuresOf(stretch + [e], key) == if e.Failure? && e.key == key then FailuresOf(stretch, key) + [e.time]
                                              else FailuresOf(stretch, key)
  {
    assert (stretch + [e])[..|stretch|] == stretch;
  }

  /**
    Over all interleavings: any stretch of the history without a success of the
    key holds at most max_failures + max_concurrent - 1 failures of the key in
    any one window.
   */
  lemma FailuresAreBounded(cfg: Config, start: real, actions: seq<Action>, i: nat, j: nat, key: Key, u: real)
    requires i <= j <= |Run(cfg, Opening(cfg, start), actions).history|
    requires Success(key) !in Run(cfg, Opening(cfg, start), actions).history[i..j]
    ensures InWindow(FailuresOf(Run(cfg, Opening(cfg, start), actions).history[i..j], key), u, cfg.window) <= Bound(cfg)
  {
    OpeningIsFine(cfg, start);
    RunKeeps(cfg, Opening(cfg, start), actions);
    var history := Run(cfg, Opening(cfg, start), actions).history;
    assert history[..j][i..] == history[i..j];
    StretchIsRecent(history[..j], i, key, u, cfg.window);
    assert InWindow(Recent(history[..j], key), u, cfg.window) <= Bound(cfg);
  }

  lemma OpeningIsFine(cfg: Config, start: real)
    ensures Inv(cfg, Opening(cfg, start))
  {
    forall key
      ensures Undecided(Opening(cfg, start), key) == {}
    {
    }
  }

  // ------------------------------------------------------ the bound is exact

  lemma {:induction false} RunAppend(cfg: Config, w: World, actions: seq<Action>, a: Action)
    ensures Run(cfg, w, actions + [a]) == Step(cfg, Run(cfg, w, actions), a)
    decreases |actions|
  {
    hide Step;
    if actions == [] {
      assert (actions + [a])[1..] == [];
    } else {
      assert (actions + [a])[1..] == actions[1..] + [a];
      RunAppend(cfg, Step(cfg, w, actions[0]), actions[1..], a);
    }
  }

  /** `failed` failures, all at time `t`, and logins 0, ..., holding - 1 that hold a slot and are undecided. */
  ghost predicate Crowd(cfg: Config, w: World, key: Key, t: real, failed: nat, holding: nat) {
    && w.clock == t && w.gate.free + holding == cfg.maxConcurrent
    && |Times(w.gate, key)| == failed && (forall i | 0 <= i < failed :: Times(w.gate, key)[i] == t)
    && |w.history| == failed && (forall i | 0 <= i < failed :: w.history[i] == Failure(key, t))
    && (forall id :: id in w.logins <==> 0 <= id < holding)
    && (forall id | id in w.logins :: w.logins[id] == Login(key, false))
  }

  lemma Join(cfg: Config, w: World, key: Key, t: real, failed: nat, holding: nat)
    requires Crowd(cfg, w, key, t, failed, holding) && cfg.window > 0.0
    requires failed < cfg.maxFailures && holding < cfg.maxConcurrent
    ensures Crowd(cfg, Step(cfg, w, Arrive(holding, key, t)), key, t, failed, holding + 1)
  {
    assert Prune(Times(w.gate, key), t - cfg.window) == Times(w.gate, key);
  }

  lemma Lose(cfg: Config, w: World, key: Key, t: real, failed: nat, holding: nat)
    requires Crowd(cfg, w, key, t, failed, holding) && holding > 0
    ensures Crowd(cfg, Step(cfg, Step(cfg, w, Fail(holding - 1, t)), Depart(holding - 1)), key, t, failed + 1,
                  holding - 1)
  {
  }

  lemma LoseAfter(cfg: Config, start: World, actions: seq<Action>, key: Key, t: real, failed: nat, holding: nat)
    returns (longer: seq<Action>)
    requires Crowd(cfg, Run(cfg, start, actions), key, t, failed, holding) && holding > 0
    ensures Crowd(cfg, Run(cfg, start, longer), key, t, failed + 1, holding - 1)
  {
    hide Crowd, Step;
    Lose(cfg, Run(cfg, start, actions), key, t, failed, holding);
    RunAppend(cfg, start, actions, Fail(holding - 1, t));
    RunAppend(cfg, start, actions + [Fail(holding - 1, t)], Depart(holding - 1));
    longer := actions + [Fail(holding - 1, t)] + [Depart(holding - 1)];
  }

  /** Failures one after the other, then as many simultaneous logins as there are slots, then all of them fail. */
  lemma {:induction false} Crowded(cfg: Config, key: Key, t: real, failed: nat, holding: nat)
    returns (actions: seq<Action>)
    requires cfg.window > 0.0 && failed < cfg.maxFailures && holding <= cfg.maxConcurrent && cfg.maxConcurrent >= 1
    ensures Crowd(cfg, Run(cfg, Opening(cfg, t), actions), key, t, failed, holding)
    decreases failed, holding
  {
    hide Step;
    var start := Opening(cfg, t);
    if holding > 0 {
      actions := Crowded(cfg, key, t, failed, holding - 1);
      hide Crowd;
      Join(cfg, Run(cfg, start, actions), key, t, failed, holding - 1);
      RunAppend(cfg, start, actions, Arrive(holding - 1, key, t));
      actions := actions + [Arrive(holding - 1, key, t)];
    } else if failed > 0 {
      actions := Crowded(cfg, key, t, failed - 1, 1);
      hide Crowd;
      actions := LoseAfter(cfg, start, actions, key, t, failed - 1, 1);
    } else {
      actions := [];
      EmptyCrowd(cfg, key, t);
    }
  }

  lemma EmptyCrowd(cfg: Config, key: Key, t: real)
    ensures Crowd(cfg, Run(cfg, Opening(cfg, t), []), key, t, 0, 0)
  {
  }

  lemma {:induction false} AllFail(cfg: Config, key: Key, t: real, k: nat) returns (actions: seq<Action>)
    requires cfg.window > 0.0 && cfg.maxFailures >= 1 && cfg.maxConcurrent >= 1 && k <= cfg.maxConcurrent
    ensures Crowd(cfg, Run(cfg, Opening(cfg, t), actions), key, t, cfg.maxFailures - 1 + k, cfg.maxConcurrent - k)
  {
    hide Crowd;
    if k == 0 {
      actions := Crowded(cfg, key, t, cfg.maxFailures - 1, cfg.maxConcurrent);
    } else {
      actions := AllFail(cfg, key, t, k - 1);
      actions := LoseAfter(cfg, Opening(cfg, t), actions, key, t, cfg.maxFailures - 1 + (k - 1),
                           cfg.maxConcurrent - (k - 1));
    }
  }

  lemma {:induction false} AllCount(history: seq<Entry>, key: Key, t: real, width: real)
    requires width > 0.0 && forall i | 0 <= i < |history| :: history[i] == Failure(key, t)
    ensures InWindow(FailuresOf(history, key), t, width) == |history|
  {
    if history != [] {
      AllCount(history[..|history| - 1], key, t, width);
      CountOneMore(FailuresOf(history[..|history| - 1], key), t, t, width);
    }
  }

  /** Some interleaving does put max_failures + max_concurrent - 1 failures into one window. */
  lemma BoundIsReached(cfg: Config, key: Key, t: real) returns (actions: seq<Action>)
    requires cfg.window > 0.0 && cfg.maxFailures >= 1 && cfg.maxConcurrent >= 1
    ensures var history := Run(cfg, Opening(cfg, t), actions).history;
            Success(key) !in history && InWindow(FailuresOf(history, key), t, cfg.window) == Bound(cfg)
  {
    actions := AllFail(cfg, key, t, cfg.maxConcurrent);
    AllCount(Run(cfg, Opening(cfg, t), actions).history, key, t, cfg.window);
  }
}
