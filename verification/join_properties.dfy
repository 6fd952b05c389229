/** Properties of the join pipeline, each a statement about the outcome and
    effect trace `ProcessJoin` computes. The lemmas of the first part speak
    of the pieces a trace is built from, those of the second part of the
    trace of each path; the properties of `ProcessJoin` then follow from the
    path the join takes. */
module JoinProperties {
  import opened Base
  import opened Text
  import opened Effects
  import opened Join

  // ----- the pieces of a trace -----

  /** The effects every checked name gets are the game mode and the social
      spy switch: no login state, no message, nothing scheduled from the
      async task. */
  lemma EarlyEffectsKinds(cfg: Config, player: Player)
    ensures forall e :: e in EarlyEffects(cfg, player) ==> e == ForceSurvival || e == DisableSocialSpy
    ensures LeavesLoginStateAlone(EarlyEffects(cfg, player))
    ensures NoneVia(EarlyEffects(cfg, player), SyncFromAsync)
  {
  }

  /** The early effects set no group and clear no login state. */
  lemma EarlyEffectsCounts(cfg: Config, player: Player, name: string)
    ensures multiset(EarlyEffects(cfg, player))[SetGroup(RegisteredUnauthenticated)] == 0
    ensures multiset(EarlyEffects(cfg, player))[SetGroup(Unregistered)] == 0
    ensures multiset(EarlyEffects(cfg, player))[SetUnlogged(name)] == 0
    ensures multiset(EarlyEffects(cfg, player))[RemoveFromCache(name)] == 0
    ensures multiset(EarlyEffects(cfg, player))[Send(SessionExpired)] == 0
    ensures multiset(EarlyEffects(cfg, player))[Send(SessionReconnection)] == 0
    ensures multiset(EarlyEffects(cfg, player))[ForceLogin] == 0
  {
  }

  /** The registered prefix sets the registered group once, and clears the
      logged-in flag and the cache entry of the lower-cased name once each
      exactly when a session or login flag exists; it sends nothing, logs
      nobody in, creates no limbo and schedules nothing from the async task. */
  lemma RegisteredEffectsCounts(cfg: Config, player: Player, env: Env)
    ensures multiset(RegisteredEffects(cfg, player, env))[SetGroup(RegisteredUnauthenticated)] == 1
    ensures multiset(RegisteredEffects(cfg, player, env))[SetGroup(Unregistered)] == 0
    ensures multiset(RegisteredEffects(cfg, player, env))[SetUnlogged(Key(player))]
            == (if SessionActive(env) then 1 else 0)
    ensures multiset(RegisteredEffects(cfg, player, env))[RemoveFromCache(Key(player))]
            == (if SessionActive(env) then 1 else 0)
    ensures multiset(RegisteredEffects(cfg, player, env))[Send(SessionExpired)] == 0
    ensures multiset(RegisteredEffects(cfg, player, env))[Send(SessionReconnection)] == 0
    ensures multiset(RegisteredEffects(cfg, player, env))[ForceLogin] == 0
    ensures forall e :: e in RegisteredEffects(cfg, player, env) ==> !e.Send? && !e.ForceLogin? && !e.CreateLimbo?
    ensures NoneVia(RegisteredEffects(cfg, player, env), SyncFromAsync)
  {
  }

  /** The limbo runnable sets no group and clears no login state. */
  lemma LimboTaskCounts(cfg: Config, player: Player, env: Env, ticks: int, name: string)
    ensures multiset(LimboTask(cfg, player, env, ticks))[SetGroup(RegisteredUnauthenticated)] == 0
    ensures multiset(LimboTask(cfg, player, env, ticks))[SetGroup(Unregistered)] == 0
    ensures multiset(LimboTask(cfg, player, env, ticks))[SetUnlogged(name)] == 0
    ensures multiset(LimboTask(cfg, player, env, ticks))[RemoveFromCache(name)] == 0
    ensures multiset(LimboTask(cfg, player, env, ticks))[Send(SessionExpired)] == 0
    ensures multiset(LimboTask(cfg, player, env, ticks))[Send(SessionReconnection)] == 0
    ensures multiset(LimboTask(cfg, player, env, ticks))[ForceLogin] == 0
  {
  }

  /** The limbo runnable creates one limbo player, for the lower-cased name,
      and sends no message, kicks nobody and logs nobody in. */
  lemma LimboTaskContents(cfg: Config, player: Player, env: Env, ticks: int)
    ensures multiset(LimboTask(cfg, player, env, ticks))[CreateLimbo(Key(player), env.authAvailable)] == 1
    ensures forall e :: e in LimboTask(cfg, player, env, ticks) ==>
              (e.CreateLimbo? ==> e == CreateLimbo(Key(player), env.authAvailable))
              && !e.Send? && !e.Kick? && !e.ForceLogin?
  {
    var create := CreateLimbo(Key(player), env.authAvailable);
    var immunity := SetNoDamageTicks(ticks);
    var blindness := AddBlindness(BlindnessTicks(ticks), BLINDNESS_AMPLIFIER);
    var motd := env.essentialsAvailable && cfg.useEssentialsMotd;
    if motd && cfg.applyBlindEffect {
      assert LimboTask(cfg, player, env, ticks) == [create, immunity, PerformMotd, blindness, RunJoinCommands];
    } else if motd {
      assert LimboTask(cfg, player, env, ticks) == [create, immunity, PerformMotd, RunJoinCommands];
    } else if cfg.applyBlindEffect {
      assert LimboTask(cfg, player, env, ticks) == [create, immunity, blindness, RunJoinCommands];
    } else {
      assert LimboTask(cfg, player, env, ticks) == [create, immunity, RunJoinCommands];
    }
  }

  /** The limbo runnable runs its steps in order: create the limbo player,
      set the damage immunity to the timeout ticks, and the join commands
      last; every step runs inside the one runnable. */
  lemma LimboTaskSteps(cfg: Config, player: Player, env: Env, ticks: int)
    ensures |LimboTask(cfg, player, env, ticks)| >= 3
    ensures LimboTask(cfg, player, env, ticks)[0] == CreateLimbo(Key(player), env.authAvailable)
    ensures LimboTask(cfg, player, env, ticks)[1] == SetNoDamageTicks(ticks)
    ensures LimboTask(cfg, player, env, ticks)[|LimboTask(cfg, player, env, ticks)| - 1] == RunJoinCommands
    ensures AllVia(LimboTask(cfg, player, env, ticks), SyncFromAsync)
  {
  }

  /** The optional steps of the limbo runnable: the motd exactly when
      Essentials is there and its motd is wanted, the blindness exactly when
      configured, never before the motd and always of positive length. */
  lemma LimboTaskOptions(cfg: Config, player: Player, env: Env, ticks: int)
    ensures PerformMotd in LimboTask(cfg, player, env, ticks) <==> env.essentialsAvailable && cfg.useEssentialsMotd
    ensures AddBlindness(BlindnessTicks(ticks), BLINDNESS_AMPLIFIER) in LimboTask(cfg, player, env, ticks)
            <==> cfg.applyBlindEffect
    ensures forall i, j ::
              0 <= i < j < |LimboTask(cfg, player, env, ticks)| && LimboTask(cfg, player, env, ticks)[j] == PerformMotd
              ==> !LimboTask(cfg, player, env, ticks)[i].AddBlindness?
    ensures forall e :: e in LimboTask(cfg, player, env, ticks) && e.AddBlindness? ==> e.duration > 0
  {
  }

  /** Appending two traces keeps what holds of both. */
  lemma AppendKeeps(a: seq<Effect>, b: seq<Effect>)
    ensures LeavesLoginStateAlone(a) && LeavesLoginStateAlone(b) ==> LeavesLoginStateAlone(a + b)
    ensures forall d :: NoneVia(a, d) && NoneVia(b, d) ==> NoneVia(a + b, d)
  {
  }

  /** A trace that ends with the limbo runnable splits at its start. */
  lemma SplitBeforeLimbo(head: seq<Effect>, limbo: seq<Effect>, t: seq<Effect>) returns (k: nat)
    requires t == head + limbo && NoneVia(head, SyncFromAsync)
    ensures k == |head| && k <= |t|
    ensures t[k..] == limbo && NoneVia(t[..k], SyncFromAsync)
  {
    k := |head|;
    assert t[..k] == head;
  }

  /** A trace whose only limbo creations are the limbo runnable's creates
      one limbo player, the runnable's. */
  lemma CreatesOneLimbo(cfg: Config, player: Player, env: Env, ticks: int, head: seq<Effect>, t: seq<Effect>)
    requires t == head + LimboTask(cfg, player, env, ticks)
    requires forall e :: e in head ==> !e.CreateLimbo?
    ensures multiset(t)[CreateLimbo(Key(player), env.authAvailable)] == 1
    ensures forall e :: e in t && e.CreateLimbo? ==> e == CreateLimbo(Key(player), env.authAvailable)
  {
    LimboTaskContents(cfg, player, env, ticks);
    assert CreateLimbo(Key(player), env.authAvailable) !in head;
  }

  // ----- the trace of each path -----

  lemma RestrictionKickTrace(cfg: Config, player: Player, t: seq<Effect>)
    requires t == EarlyEffects(cfg, player) + RestrictionKick(cfg, player)
    ensures multiset(t)[Kick(NotOwnerError)] == 1 && KicksOnlyWith(t, NotOwnerError)
    ensures LeavesLoginStateAlone(t) && CreatesNoLimbo(t)
  {
    var early := EarlyEffects(cfg, player);
    EarlyEffectsKinds(cfg, player);
    if cfg.banUnknownIp {
      assert t == early + [Kick(NotOwnerError), BanIp(player.ip)];
      AppendKeeps(early, [Kick(NotOwnerError), BanIp(player.ip)]);
    } else {
      assert t == early + [Kick(NotOwnerError)];
      AppendKeeps(early, [Kick(NotOwnerError)]);
    }
  }

  /** The restriction refusal ends with the kick, followed by the ban exactly
      when ban-unknown-IP is on. */
  lemma RestrictionKickOrder(cfg: Config, player: Player, t: seq<Effect>)
    requires t == EarlyEffects(cfg, player) + RestrictionKick(cfg, player)
    ensures BanIp(player.ip) in t <==> cfg.banUnknownIp
    ensures cfg.banUnknownIp ==> |t| >= 2 && t[|t| - 2] == Kick(NotOwnerError) && t[|t| - 1] == BanIp(player.ip)
    ensures !cfg.banUnknownIp ==> |t| >= 1 && t[|t| - 1] == Kick(NotOwnerError)
  {
    EarlyEffectsKinds(cfg, player);
  }

  lemma CapKickTrace(cfg: Config, player: Player, t: seq<Effect>)
    requires t == EarlyEffects(cfg, player) + [Kick(SameIpOnline)]
    ensures multiset(t)[Kick(SameIpOnline)] == 1 && KicksOnlyWith(t, SameIpOnline)
    ensures LeavesLoginStateAlone(t) && CreatesNoLimbo(t)
    ensures forall e :: e in t ==> !e.BanIp?
    ensures |t| >= 1 && t[|t| - 1] == Kick(SameIpOnline)
  {
    EarlyEffectsKinds(cfg, player);
    AppendKeeps(EarlyEffects(cfg, player), [Kick(SameIpOnline)]);
  }

  lemma ResumedTrace(cfg: Config, player: Player, env: Env, t: seq<Effect>)
    requires t == EarlyEffects(cfg, player)
                  + (RegisteredEffects(cfg, player, env) + [Send(SessionReconnection), ForceLogin])
    ensures multiset(t)[SetGroup(RegisteredUnauthenticated)] == 1 && multiset(t)[SetGroup(Unregistered)] == 0
    ensures multiset(t)[SetUnlogged(Key(player))] == (if SessionActive(env) then 1 else 0)
    ensures multiset(t)[RemoveFromCache(Key(player))] == (if SessionActive(env) then 1 else 0)
    ensures CreatesNoLimbo(t)
    ensures |t| >= 2 && t[|t| - 2] == Send(SessionReconnection) && t[|t| - 1] == ForceLogin
  {
    EarlyEffectsKinds(cfg, player);
    EarlyEffectsCounts(cfg, player, Key(player));
    RegisteredEffectsCounts(cfg, player, env);
  }

  /** With a session or login flag, the registered prefix ends by clearing
      the flag and then the cache entry. */
  lemma RegisteredEffectsEndWithClearing(cfg: Config, player: Player, env: Env)
    requires SessionActive(env)
    ensures |RegisteredEffects(cfg, player, env)| >= 2
    ensures RegisteredEffects(cfg, player, env)[|RegisteredEffects(cfg, player, env)| - 2] == SetUnlogged(Key(player))
    ensures RegisteredEffects(cfg, player, env)[|RegisteredEffects(cfg, player, env)| - 1] == RemoveFromCache(Key(player))
  {
  }

  /** On resuming, the flag and the cache are cleared before the
      reconnection message. */
  lemma ResumedClearsFirst(cfg: Config, player: Player, env: Env, t: seq<Effect>)
    requires SessionActive(env)
    requires t == EarlyEffects(cfg, player)
                  + (RegisteredEffects(cfg, player, env) + [Send(SessionReconnection), ForceLogin])
    ensures ClearedBefore(t, Key(player), Send(SessionReconnection))
  {
    var early := EarlyEffects(cfg, player);
    var reg := RegisteredEffects(cfg, player, env);
    RegisteredEffectsEndWithClearing(cfg, player, env);
    var n := |early| + |reg|;
    assert t[n - 2] == reg[|reg| - 2] && t[n - 1] == reg[|reg| - 1] && t[n] == Send(SessionReconnection);
  }

  /** On an expired session, the flag and the cache are cleared before the
      expired message. */
  lemma ExpiredClearsFirst(cfg: Config, player: Player, env: Env, ticks: int, t: seq<Effect>)
    requires SessionActive(env)
    requires t == EarlyEffects(cfg, player)
                  + (RegisteredEffects(cfg, player, env) + [Send(SessionExpired)] + LimboTask(cfg, player, env, ticks))
    ensures ClearedBefore(t, Key(player), Send(SessionExpired))
  {
    var early := EarlyEffects(cfg, player);
    var reg := RegisteredEffects(cfg, player, env);
    RegisteredEffectsEndWithClearing(cfg, player, env);
    var n := |early| + |reg|;
    assert t[n - 2] == reg[|reg| - 2] && t[n - 1] == reg[|reg| - 1] && t[n] == Send(SessionExpired);
  }

  lemma ExpiredTrace(cfg: Config, player: Player, env: Env, ticks: int, t: seq<Effect>)
    requires t == EarlyEffects(cfg, player)
                  + (RegisteredEffects(cfg, player, env) + [Send(SessionExpired)] + LimboTask(cfg, player, env, ticks))
    ensures multiset(t)[SetGroup(RegisteredUnauthenticated)] == 1 && multiset(t)[SetGroup(Unregistered)] == 0
    ensures multiset(t)[SetUnlogged(Key(player))] == (if SessionActive(env) then 1 else 0)
    ensures multiset(t)[RemoveFromCache(Key(player))] == (if SessionActive(env) then 1 else 0)
    ensures multiset(t)[Send(SessionExpired)] == 1
    ensures multiset(t)[Send(SessionReconnection)] == 0 && multiset(t)[ForceLogin] == 0
  {
    EarlyEffectsCounts(cfg, player, Key(player));
    RegisteredEffectsCounts(cfg, player, env);
    LimboTaskCounts(cfg, player, env, ticks, Key(player));
  }

  lemma RegisteredLimboTrace(cfg: Config, player: Player, env: Env, ticks: int, t: seq<Effect>)
    requires t == EarlyEffects(cfg, player) + (RegisteredEffects(cfg, player, env) + LimboTask(cfg, player, env, ticks))
    ensures multiset(t)[SetGroup(RegisteredUnauthenticated)] == 1 && multiset(t)[SetGroup(Unregistered)] == 0
    ensures multiset(t)[SetUnlogged(Key(player))] == (if SessionActive(env) then 1 else 0)
    ensures multiset(t)[RemoveFromCache(Key(player))] == (if SessionActive(env) then 1 else 0)
    ensures multiset(t)[Send(SessionExpired)] == 0 && multiset(t)[Send(SessionReconnection)] == 0
    ensures multiset(t)[ForceLogin] == 0
  {
    EarlyEffectsCounts(cfg, player, Key(player));
    RegisteredEffectsCounts(cfg, player, env);
    LimboTaskCounts(cfg, player, env, ticks, Key(player));
  }

  lemma OptionalTrace(cfg: Config, player: Player, t: seq<Effect>)
    requires t == EarlyEffects(cfg, player) + [SetGroup(Unregistered)]
    ensures multiset(t)[SetGroup(RegisteredUnauthenticated)] == 0 && multiset(t)[SetGroup(Unregistered)] == 1
    ensures multiset(t)[SetUnlogged(Key(player))] == 0 && multiset(t)[RemoveFromCache(Key(player))] == 0
    ensures forall e :: e in t ==> e == ForceSurvival || e == DisableSocialSpy || e == SetGroup(Unregistered)
    ensures CreatesNoLimbo(t)
    ensures |t| >= 1 && t[|t| - 1] == SetGroup(Unregistered)
  {
    EarlyEffectsKinds(cfg, player);
    EarlyEffectsCounts(cfg, player, Key(player));
  }

  lemma UnregisteredLimboTrace(cfg: Config, player: Player, env: Env, ticks: int, t: seq<Effect>)
    requires t == EarlyEffects(cfg, player) + ([SetGroup(Unregistered)] + LimboTask(cfg, player, env, ticks))
    ensures multiset(t)[SetGroup(RegisteredUnauthenticated)] == 0 && multiset(t)[SetGroup(Unregistered)] == 1
    ensures multiset(t)[SetUnlogged(Key(player))] == 0 && multiset(t)[RemoveFromCache(Key(player))] == 0
  {
    EarlyEffectsCounts(cfg, player, Key(player));
    LimboTaskCounts(cfg, player, env, ticks, Key(player));
  }

  /** A new player sent to limbo is not kicked. */
  lemma UnregisteredLimboKicksNobody(cfg: Config, player: Player, env: Env, ticks: int, t: seq<Effect>)
    requires t == EarlyEffects(cfg, player) + ([SetGroup(Unregistered)] + LimboTask(cfg, player, env, ticks))
    ensures forall e :: e in t ==> !e.Kick?
  {
    EarlyEffectsKinds(cfg, player);
    LimboTaskContents(cfg, player, env, ticks);
  }

  /** Along a path ending in limbo the limbo runnable comes last: before it
      nothing is scheduled from the async task, and it creates the one limbo
      player of the trace. */
  lemma LimboPathTrace(cfg: Config, player: Player, env: Env, ticks: int, before: seq<Effect>, t: seq<Effect>)
      returns (k: nat)
    requires t == EarlyEffects(cfg, player) + (before + LimboTask(cfg, player, env, ticks))
    requires forall e :: e in before ==> Via(e) != SyncFromAsync && !e.CreateLimbo?
    ensures k <= |t| && t[k..] == LimboTask(cfg, player, env, ticks)
    ensures NoneVia(t[..k], SyncFromAsync)
    ensures multiset(t)[CreateLimbo(Key(player), env.authAvailable)] == 1
    ensures forall e :: e in t && e.CreateLimbo? ==> e == CreateLimbo(Key(player), env.authAvailable)
  {
    var early := EarlyEffects(cfg, player);
    var limbo := LimboTask(cfg, player, env, ticks);
    EarlyEffectsKinds(cfg, player);
    assert t == (early + before) + limbo;
    assert NoneVia(before, SyncFromAsync);
    AppendKeeps(early, before);
    k := SplitBeforeLimbo(early + before, limbo, t);
    CreatesOneLimbo(cfg, player, env, ticks, early + before, t);
  }

  lemma ExpiredLimboSplit(cfg: Config, player: Player, env: Env, ticks: int, t: seq<Effect>) returns (k: nat)
    requires t == EarlyEffects(cfg, player)
                  + (RegisteredEffects(cfg, player, env) + [Send(SessionExpired)] + LimboTask(cfg, player, env, ticks))
    ensures k <= |t| && t[k..] == LimboTask(cfg, player, env, ticks) && NoneVia(t[..k], SyncFromAsync)
    ensures multiset(t)[CreateLimbo(Key(player), env.authAvailable)] == 1
    ensures forall e :: e in t && e.CreateLimbo? ==> e == CreateLimbo(Key(player), env.authAvailable)
  {
    RegisteredEffectsCounts(cfg, player, env);
    k := LimboPathTrace(cfg, player, env, ticks, RegisteredEffects(cfg, player, env) + [Send(SessionExpired)], t);
  }

  lemma RegisteredLimboSplit(cfg: Config, player: Player, env: Env, ticks: int, t: seq<Effect>) returns (k: nat)
    requires t == EarlyEffects(cfg, player) + (RegisteredEffects(cfg, player, env) + LimboTask(cfg, player, env, ticks))
    ensures k <= |t| && t[k..] == LimboTask(cfg, player, env, ticks) && NoneVia(t[..k], SyncFromAsync)
    ensures multiset(t)[CreateLimbo(Key(player), env.authAvailable)] == 1
    ensures forall e :: e in t && e.CreateLimbo? ==> e == CreateLimbo(Key(player), env.authAvailable)
  {
    RegisteredEffectsCounts(cfg, player, env);
    k := LimboPathTrace(cfg, player, env, ticks, RegisteredEffects(cfg, player, env), t);
  }

  lemma UnregisteredLimboSplit(cfg: Config, player: Player, env: Env, ticks: int, t: seq<Effect>) returns (k: nat)
    requires t == EarlyEffects(cfg, player) + ([SetGroup(Unregistered)] + LimboTask(cfg, player, env, ticks))
    ensures k <= |t| && t[k..] == LimboTask(cfg, player, env, ticks) && NoneVia(t[..k], SyncFromAsync)
    ensures multiset(t)[CreateLimbo(Key(player), env.authAvailable)] == 1
    ensures forall e :: e in t && e.CreateLimbo? ==> e == CreateLimbo(Key(player), env.authAvailable)
  {
    k := LimboPathTrace(cfg, player, env, ticks, [SetGroup(Unregistered)], t);
  }

  // ----- the properties of a join -----

  /** A name on the bypass list is let through untouched: no check runs and
      nothing happens. */
  lemma BypassedNameUntouched(cfg: Config, player: Player, env: Env, tps: TicksPerSecond, r: JoinResult)
    requires ValidConfig(cfg) && r == ProcessJoin(cfg, player, env, tps)
    ensures Unrestricted(cfg, player) <==> r.outcome == Ignored
    ensures Unrestricted(cfg, player) ==> r.trace == []
  {
    if Unrestricted(cfg, player) {
      assert PathOf(cfg, player, env) == Bypassed;
    }
  }

  /** A restricted name connecting from an address its entries do not list
      is kicked once with the not-owner message, its IP banned afterwards
      exactly when configured; no group, store, session or limbo change. */
  lemma RestrictionRefusal(cfg: Config, player: Player, env: Env, tps: TicksPerSecond, r: JoinResult)
    requires ValidConfig(cfg) && r == ProcessJoin(cfg, player, env, tps)
    requires !Unrestricted(cfg, player) && Restricted(cfg, player)
    ensures r.outcome == Kicked(NotOwnerError)
    ensures multiset(r.trace)[Kick(NotOwnerError)] == 1 && KicksOnlyWith(r.trace, NotOwnerError)
    ensures LeavesLoginStateAlone(r.trace)
    ensures BanIp(player.ip) in r.trace <==> cfg.banUnknownIp
    ensures cfg.banUnknownIp ==>
              |r.trace| >= 2 && r.trace[|r.trace| - 2] == Kick(NotOwnerError) && r.trace[|r.trace| - 1] == BanIp(player.ip)
  {
    assert PathOf(cfg, player, env) == RefusedRestricted;
    RestrictionKickTrace(cfg, player, r.trace);
    RestrictionKickOrder(cfg, player, r.trace);
  }

  /** A join over the per-IP cap is kicked once with the same-IP message and
      nothing else: no ban, no group, store, session or limbo change. */
  lemma CapRefusal(cfg: Config, player: Player, env: Env, tps: TicksPerSecond, r: JoinResult)
    requires ValidConfig(cfg) && r == ProcessJoin(cfg, player, env, tps)
    requires !Unrestricted(cfg, player) && !Restricted(cfg, player) && !CapCheck(cfg, player, env).passed
    ensures r.outcome == Kicked(SameIpOnline)
    ensures multiset(r.trace)[Kick(SameIpOnline)] == 1 && KicksOnlyWith(r.trace, SameIpOnline)
    ensures LeavesLoginStateAlone(r.trace)
    ensures forall e :: e in r.trace ==> !e.BanIp?
  {
    assert PathOf(cfg, player, env) == RefusedCap;
    CapKickTrace(cfg, player, r.trace);
  }

  /** An admitted player is put in the registered-unauthenticated group when
      an auth record exists and in the unregistered group otherwise, once,
      and never in the other one. */
  lemma GroupFollowsRegistration(cfg: Config, player: Player, env: Env, tps: TicksPerSecond, r: JoinResult)
    requires ValidConfig(cfg) && r == ProcessJoin(cfg, player, env, tps) && Admitted(cfg, player, env)
    ensures multiset(r.trace)[SetGroup(RegisteredUnauthenticated)] == (if env.authAvailable then 1 else 0)
    ensures multiset(r.trace)[SetGroup(Unregistered)] == (if env.authAvailable then 0 else 1)
  {
    var ticks := RegistrationTimeoutTicks(cfg, tps);
    match PathOf(cfg, player, env)
    case Resumed => ResumedTrace(cfg, player, env, r.trace);
    case ExpiredToLimbo => ExpiredTrace(cfg, player, env, ticks, r.trace);
    case RegisteredToLimbo => RegisteredLimboTrace(cfg, player, env, ticks, r.trace);
    case UnregisteredOptional => OptionalTrace(cfg, player, r.trace);
    case UnregisteredToLimbo => UnregisteredLimboTrace(cfg, player, env, ticks, r.trace);
  }

  /** With no auth record and registration optional, the join ends right
      after the group is set: no limbo, no session or cache change. */
  lemma OptionalRegistrationStopsAtGroup(cfg: Config, player: Player, env: Env, tps: TicksPerSecond, r: JoinResult)
    requires ValidConfig(cfg) && r == ProcessJoin(cfg, player, env, tps) && Admitted(cfg, player, env)
    requires !env.authAvailable && !cfg.forceRegistration
    ensures r.outcome == Unauthenticated
    ensures |r.trace| > 0 && r.trace[|r.trace| - 1] == SetGroup(Unregistered)
    ensures forall e :: e in r.trace ==> !e.CreateLimbo? && !e.SetUnlogged? && !e.RemoveFromCache?
  {
    assert PathOf(cfg, player, env) == UnregisteredOptional;
    OptionalTrace(cfg, player, r.trace);
  }

  /** For an admitted registered name with a session or a logged-in flag,
      the flag and the cache entry of the lower-cased name are cleared once
      each, whatever the stored record says; otherwise neither is touched. */
  lemma SessionClearedExactlyOnce(cfg: Config, player: Player, env: Env, tps: TicksPerSecond, r: JoinResult)
    requires ValidConfig(cfg) && r == ProcessJoin(cfg, player, env, tps) && Admitted(cfg, player, env)
    ensures multiset(r.trace)[SetUnlogged(Key(player))] == (if env.authAvailable && SessionActive(env) then 1 else 0)
    ensures multiset(r.trace)[RemoveFromCache(Key(player))] == (if env.authAvailable && SessionActive(env) then 1 else 0)
  {
    var ticks := RegistrationTimeoutTicks(cfg, tps);
    match PathOf(cfg, player, env)
    case Resumed => ResumedTrace(cfg, player, env, r.trace);
    case ExpiredToLimbo => ExpiredTrace(cfg, player, env, ticks, r.trace);
    case RegisteredToLimbo => RegisteredLimboTrace(cfg, player, env, ticks, r.trace);
    case UnregisteredOptional => OptionalTrace(cfg, player, r.trace);
    case UnregisteredToLimbo => UnregisteredLimboTrace(cfg, player, env, ticks, r.trace);
  }

  /** The three ends of the session branch of a registered name: a stored
      record with the joining IP resumes the session (reconnection message,
      then a forced login, no limbo); a record with another IP sends the
      expired message once and goes to limbo; no record goes to limbo with
      neither message. */
  lemma SessionBranchOutcomes(cfg: Config, player: Player, env: Env, tps: TicksPerSecond, r: JoinResult)
    requires ValidConfig(cfg) && r == ProcessJoin(cfg, player, env, tps) && Admitted(cfg, player, env)
    requires env.authAvailable && SessionActive(env)
    ensures env.storedAuth == Some(StoredAuth(player.ip)) ==>
              && r.outcome == FastPathLogin
              && |r.trace| >= 2 && r.trace[|r.trace| - 2] == Send(SessionReconnection)
              && r.trace[|r.trace| - 1] == ForceLogin
              && CreatesNoLimbo(r.trace)
              && ClearedBefore(r.trace, Key(player), Send(SessionReconnection))
    ensures env.storedAuth.Some? && env.storedAuth.value.ip != player.ip ==>
              && r.outcome == Limbo
              && multiset(r.trace)[Send(SessionExpired)] == 1
              && multiset(r.trace)[Send(SessionReconnection)] == 0 && multiset(r.trace)[ForceLogin] == 0
              && ClearedBefore(r.trace, Key(player), Send(SessionExpired))
    ensures env.storedAuth.None? ==>
              && r.outcome == Limbo
              && multiset(r.trace)[Send(SessionExpired)] == 0
              && multiset(r.trace)[Send(SessionReconnection)] == 0 && multiset(r.trace)[ForceLogin] == 0
  {
    var ticks := RegistrationTimeoutTicks(cfg, tps);
    if env.storedAuth == Some(StoredAuth(player.ip)) {
      assert PathOf(cfg, player, env) == Resumed;
      ResumedTrace(cfg, player, env, r.trace);
      ResumedClearsFirst(cfg, player, env, r.trace);
    } else if env.storedAuth.Some? {
      assert PathOf(cfg, player, env) == ExpiredToLimbo;
      ExpiredTrace(cfg, player, env, ticks, r.trace);
      ExpiredClearsFirst(cfg, player, env, ticks, r.trace);
    } else {
      assert PathOf(cfg, player, env) == RegisteredToLimbo;
      RegisteredLimboTrace(cfg, player, env, ticks, r.trace);
    }
  }

  /** The limbo runnable is the last thing a join that ends in limbo does:
      it is the suffix of the trace from `k` on, nothing before it is
      scheduled from the async task, and it creates the one limbo player of
      the trace. */
  lemma LimboRunnableLast(cfg: Config, player: Player, env: Env, tps: TicksPerSecond, r: JoinResult)
      returns (k: nat)
    requires ValidConfig(cfg) && r == ProcessJoin(cfg, player, env, tps) && r.outcome == Limbo
    ensures k <= |r.trace| && r.trace[k..] == LimboTask(cfg, player, env, RegistrationTimeoutTicks(cfg, tps))
    ensures NoneVia(r.trace[..k], SyncFromAsync)
    ensures multiset(r.trace)[CreateLimbo(Key(player), env.authAvailable)] == 1
    ensures forall e :: e in r.trace && e.CreateLimbo? ==> e == CreateLimbo(Key(player), env.authAvailable)
  {
    var ticks := RegistrationTimeoutTicks(cfg, tps);
    match PathOf(cfg, player, env)
    case ExpiredToLimbo => k := ExpiredLimboSplit(cfg, player, env, ticks, r.trace);
    case RegisteredToLimbo => k := RegisteredLimboSplit(cfg, player, env, ticks, r.trace);
    case UnregisteredToLimbo => k := UnregisteredLimboSplit(cfg, player, env, ticks, r.trace);
  }

  /** In a join that ends in limbo, once something is scheduled from the
      async task everything after it is too: the game-mode change, the
      group, the store and the messages all come before the runnable. */
  lemma SyncWorkComesLast(cfg: Config, player: Player, env: Env, tps: TicksPerSecond, r: JoinResult)
    requires ValidConfig(cfg) && r == ProcessJoin(cfg, player, env, tps) && r.outcome == Limbo
    ensures ViaSuffix(r.trace, SyncFromAsync)
  {
    var k := LimboRunnableLast(cfg, player, env, tps, r);
    LimboTaskSteps(cfg, player, env, RegistrationTimeoutTicks(cfg, tps));
    ViaSuffixAtSplit(r.trace, k, SyncFromAsync);
  }

  /** A join that does not end in limbo creates no limbo player. */
  lemma NoLimboOutsideLimbo(cfg: Config, player: Player, env: Env, tps: TicksPerSecond, r: JoinResult)
    requires ValidConfig(cfg) && r == ProcessJoin(cfg, player, env, tps) && r.outcome != Limbo
    ensures CreatesNoLimbo(r.trace)
  {
    match PathOf(cfg, player, env)
    case Bypassed =>
    case RefusedRestricted => RestrictionKickTrace(cfg, player, r.trace);
    case RefusedCap => CapKickTrace(cfg, player, r.trace);
    case Resumed => ResumedTrace(cfg, player, env, r.trace);
    case UnregisteredOptional => OptionalTrace(cfg, player, r.trace);
  }

  /** A trace whose suffix from `k` is the limbo runnable, with nothing
      before it scheduled from the async task, shows the limbo steps in
      order. */
  lemma LimboSuffixSteps(cfg: Config, player: Player, env: Env, ticks: int, t: seq<Effect>, k: nat)
    requires k <= |t| && t[k..] == LimboTask(cfg, player, env, ticks) && NoneVia(t[..k], SyncFromAsync)
    ensures k + 2 < |t| && t[k] == CreateLimbo(Key(player), env.authAvailable) && t[k + 1] == SetNoDamageTicks(ticks)
    ensures t[|t| - 1] == RunJoinCommands
    ensures PerformMotd in t <==> env.essentialsAvailable && cfg.useEssentialsMotd
    ensures AddBlindness(BlindnessTicks(ticks), BLINDNESS_AMPLIFIER) in t <==> cfg.applyBlindEffect
    ensures forall e :: e in t && e.AddBlindness? ==> e.duration == BlindnessTicks(ticks)
  {
    var limbo := LimboTask(cfg, player, env, ticks);
    LimboTaskSteps(cfg, player, env, ticks);
    LimboTaskOptions(cfg, player, env, ticks);
    assert t == t[..k] + limbo;
    assert t[k] == limbo[0] && t[k + 1] == limbo[1];
    assert t[|t| - 1] == limbo[|limbo| - 1];
    forall e | e in t
      ensures e == PerformMotd || e.AddBlindness? ==> e in limbo
    {
      if e !in limbo {
        assert e in t[..k];
      }
    }
  }

  /** In limbo the trace ends with the limbo steps in order: create, damage
      immunity for the timeout ticks, the motd exactly when wanted, the
      blindness exactly when configured, the join commands last. */
  lemma LimboStepOrder(cfg: Config, player: Player, env: Env, tps: TicksPerSecond, r: JoinResult)
    requires ValidConfig(cfg) && r == ProcessJoin(cfg, player, env, tps) && r.outcome == Limbo
    ensures exists k :: 0 <= k && k + 2 < |r.trace|
              && r.trace[k] == CreateLimbo(Key(player), env.authAvailable)
              && r.trace[k + 1] == SetNoDamageTicks(RegistrationTimeoutTicks(cfg, tps))
    ensures r.trace[|r.trace| - 1] == RunJoinCommands
    ensures PerformMotd in r.trace <==> env.essentialsAvailable && cfg.useEssentialsMotd
    ensures AddBlindness(BlindnessTicks(RegistrationTimeoutTicks(cfg, tps)), BLINDNESS_AMPLIFIER) in r.trace
            <==> cfg.applyBlindEffect
  {
    var k := LimboRunnableLast(cfg, player, env, tps, r);
    LimboSuffixSteps(cfg, player, env, RegistrationTimeoutTicks(cfg, tps), r.trace, k);
  }

  /** A registration timeout of 0 gives no damage immunity and the fallback
      blindness length instead of a zero one. */
  lemma DisabledTimeout(cfg: Config, player: Player, env: Env, tps: TicksPerSecond, r: JoinResult)
    requires ValidConfig(cfg) && r == ProcessJoin(cfg, player, env, tps) && r.outcome == Limbo
    requires cfg.timeoutSeconds == 0
    ensures SetNoDamageTicks(0) in r.trace
    ensures cfg.applyBlindEffect ==> AddBlindness(FALLBACK_BLINDNESS_TICKS, BLINDNESS_AMPLIFIER) in r.trace
    ensures forall e :: e in r.trace && e.AddBlindness? ==> e.duration == FALLBACK_BLINDNESS_TICKS
  {
    var k := LimboRunnableLast(cfg, player, env, tps, r);
    LimboSuffixSteps(cfg, player, env, 0, r.trace, k);
  }

  /** The join of the example takes the forced-registration path with 600
      ticks of timeout. */
  lemma NewPlayerPath(cfg: Config, env: Env)
    requires !cfg.enableRestrictedUsers && cfg.maxJoinPerIp == 0 && cfg.unrestrictedNames == []
    requires !env.authAvailable && cfg.forceRegistration && cfg.timeoutSeconds == 30
    ensures Key(Player("bob", "1.2.3.4", None, false, false)) == "bob"
    ensures ValidConfig(cfg)
    ensures PathOf(cfg, Player("bob", "1.2.3.4", None, false, false), env) == UnregisteredToLimbo
    ensures RegistrationTimeoutTicks(cfg, 20) == 600
  {
    var player := Player("bob", "1.2.3.4", None, false, false);
    assert Key(player) == "bob";
    assert CapCheck(cfg, player, env).passed;
  }

  /** A new player "bob" on a server with forced registration, a 30 second
      timeout and 20 ticks per second waits in limbo: unregistered group, a
      limbo player for "bob" and 600 ticks of damage immunity. */
  lemma NewPlayerWaitsInLimbo(cfg: Config, env: Env, r: JoinResult)
    requires !cfg.enableRestrictedUsers && cfg.maxJoinPerIp == 0 && cfg.unrestrictedNames == []
    requires !env.authAvailable && cfg.forceRegistration && cfg.timeoutSeconds == 30
    requires r == ProcessJoin(cfg, Player("bob", "1.2.3.4", None, false, false), env, 20)
    ensures r.outcome == Limbo
    ensures SetGroup(Unregistered) in r.trace
    ensures multiset(r.trace)[CreateLimbo("bob", false)] == 1
    ensures SetNoDamageTicks(600) in r.trace
    ensures forall e :: e in r.trace ==> !e.Kick?
  {
    var player := Player("bob", "1.2.3.4", None, false, false);
    NewPlayerPath(cfg, env);
    GroupFollowsRegistration(cfg, player, env, 20, r);
    var k := LimboRunnableLast(cfg, player, env, 20, r);
    LimboSuffixSteps(cfg, player, env, 600, r.trace, k);
    UnregisteredLimboKicksNobody(cfg, player, env, 600, r.trace);
  }
}
