/** `AsynchronousJoin.processJoin` as a pure decision: from a snapshot of
    the configuration, the joining player and the state of the data source,
    session manager and server, it computes how the join ends and the ordered
    trace of effects the process performs or schedules. */
module Join {
  import opened Base
  import opened Text
  import opened Effects
  import Restriction
  import IpLimit

  /** The configuration values the join process reads. */
  datatype Config = Config(
    unrestrictedNames: seq<string>,
    forceSurvivalMode: bool,
    disableSocialSpy: bool,
    enableRestrictedUsers: bool,
    allowedRestrictedUsers: seq<string>,
    banUnknownIp: bool,
    maxJoinPerIp: Int32,
    protectInventoryBeforeLogin: bool,
    forceRegistration: bool,
    timeoutSeconds: Int32,
    useEssentialsMotd: bool,
    applyBlindEffect: bool)

  /** The joining player: its name as typed, its IP, the host name of its
      address when one is known, and the two permissions the process tests. */
  datatype Player = Player(
    name: string,
    ip: string,
    hostName: Option<string>,
    bypassForceSurvival: bool,
    allowMultipleAccounts: bool)

  /** The part of a stored auth record the session logic reads. */
  datatype StoredAuth = StoredAuth(ip: string)

  /** What the collaborators answer for this player's (lower-cased) name. */
  datatype Env = Env(
    onlineIps: seq<string>,          // IPs of all online players, the joining one included
    authAvailable: bool,             // an auth record exists
    hasSession: bool,                // the session manager holds a session
    isLogged: bool,                  // the data source marks the name logged in
    storedAuth: Option<StoredAuth>,  // the record fetched in the session branch
    essentialsAvailable: bool)

  datatype Outcome =
    | Ignored            // the name bypasses every check
    | Kicked(reason: MessageKey)
    | FastPathLogin      // an open session from the same IP is resumed
    | Unauthenticated    // unregistered and registration optional: only the group is set
    | Limbo              // the player waits in limbo to log in or register

  datatype JoinResult = JoinResult(outcome: Outcome, trace: seq<Effect>)

  /** `BukkitService.TICKS_PER_SECOND`, a positive Java `int`. */
  type TicksPerSecond = t: int | 0 < t <= 0x7fff_ffff witness 20

  /** Blindness length used when the registration timeout is off. */
  const FALLBACK_BLINDNESS_TICKS: int := 99999

  /** Amplifier of the blindness effect. */
  const BLINDNESS_AMPLIFIER: int := 2

  /** The restriction list is only parsed when the feature is on, and every
      entry then needs a name and an address field. */
  predicate ValidConfig(cfg: Config)
  {
    cfg.enableRestrictedUsers ==> Restriction.AllWellFormed(cfg.allowedRestrictedUsers)
  }

  /** The key every store, cache and limbo operation uses. */
  function Key(player: Player): string
  {
    Lower(player.name)
  }

  predicate Unrestricted(cfg: Config, player: Player)
  {
    Key(player) in cfg.unrestrictedNames
  }

  predicate Restricted(cfg: Config, player: Player)
    requires ValidConfig(cfg)
  {
    Restriction.IsNameRestricted(cfg.enableRestrictedUsers, cfg.allowedRestrictedUsers,
                                 Key(player), Some(player.ip), player.hostName)
  }

  function CapCheck(cfg: Config, player: Player, env: Env): Gate
  {
    IpLimit.ValidatePlayerCountForIp(cfg.maxJoinPerIp, player.allowMultipleAccounts, player.ip, env.onlineIps)
  }

  /** The player got past the bypass list and both admission checks. */
  predicate Admitted(cfg: Config, player: Player, env: Env)
    requires ValidConfig(cfg)
  {
    !Unrestricted(cfg, player) && !Restricted(cfg, player) && CapCheck(cfg, player, env).passed
  }

  predicate SessionActive(env: Env)
  {
    env.hasSession || env.isLogged
  }

  /** An open session whose stored IP is the one the player joins from. */
  predicate SessionResumable(player: Player, env: Env)
  {
    env.authAvailable && SessionActive(env) && env.storedAuth == Some(StoredAuth(player.ip))
  }

  /** The damage-immunity ticks: the timeout in seconds times the ticks per
      second, as a Java `int` product. */
  function RegistrationTimeoutTicks(cfg: Config, tps: TicksPerSecond): (ticks: Int32)
    ensures INT32_MIN <= cfg.timeoutSeconds * tps <= INT32_MAX ==> ticks == cfg.timeoutSeconds * tps
    ensures cfg.timeoutSeconds == 0 ==> ticks == 0
  {
    WrapInt32(cfg.timeoutSeconds * tps)
  }

  /** Blindness lasts as long as the timeout, or the fallback when the
      timeout is not positive; either way it is a positive, finite length. */
  function BlindnessTicks(timeoutTicks: int): (d: int)
    ensures d > 0
    ensures timeoutTicks > 0 ==> d == timeoutTicks
    ensures timeoutTicks <= 0 ==> d == FALLBACK_BLINDNESS_TICKS
  {
    if timeoutTicks <= 0 then FALLBACK_BLINDNESS_TICKS else timeoutTicks
  }

  /** Game-mode and social-spy effects run for every name not on the bypass
      list: the game mode first, when forced and not bypassed, then the
      social spy switch, when configured. */
  function EarlyEffects(cfg: Config, player: Player): seq<Effect>
  {
    var survival := cfg.forceSurvivalMode && !player.bypassForceSurvival;
    if survival && cfg.disableSocialSpy then [ForceSurvival, DisableSocialSpy]
    else if survival then [ForceSurvival]
    else if cfg.disableSocialSpy then [DisableSocialSpy]
    else []
  }

  /** The runnable that kicks a restricted player and then, when so
      configured, bans its IP. */
  function RestrictionKick(cfg: Config, player: Player): seq<Effect>
  {
    if cfg.banUnknownIp then [Kick(NotOwnerError), BanIp(player.ip)] else [Kick(NotOwnerError)]
  }

  /** The body of the limbo runnable, in the order the steps run: limbo
      player, damage immunity, the motd when Essentials is there and its motd
      is wanted, the blindness when configured, the join commands. */
  function LimboTask(cfg: Config, player: Player, env: Env, timeoutTicks: int): seq<Effect>
  {
    var create := CreateLimbo(Key(player), env.authAvailable);
    var immunity := SetNoDamageTicks(timeoutTicks);
    var blindness := AddBlindness(BlindnessTicks(timeoutTicks), BLINDNESS_AMPLIFIER);
    var motd := env.essentialsAvailable && cfg.useEssentialsMotd;
    if motd && cfg.applyBlindEffect then [create, immunity, PerformMotd, blindness, RunJoinCommands]
    else if motd then [create, immunity, PerformMotd, RunJoinCommands]
    else if cfg.applyBlindEffect then [create, immunity, blindness, RunJoinCommands]
    else [create, immunity, RunJoinCommands]
  }

  /** The registered branch up to the session decision: the group, the
      inventory protection event when configured, and when a session or login
      flag exists the unconditional logout and cache eviction. */
  function RegisteredEffects(cfg: Config, player: Player, env: Env): seq<Effect>
  {
    var group := SetGroup(RegisteredUnauthenticated);
    var unlogged := SetUnlogged(Key(player));
    var uncached := RemoveFromCache(Key(player));
    if cfg.protectInventoryBeforeLogin then
      if SessionActive(env) then [group, FireProtectInventory, unlogged, uncached]
      else [group, FireProtectInventory]
    else
      if SessionActive(env) then [group, unlogged, uncached] else [group]
  }

  /** The ways through `processJoin`, one per place the process ends. */
  datatype Path =
    | Bypassed              // the name is on the unrestricted list
    | RefusedRestricted     // a restricted name from an address not listed for it
    | RefusedCap            // too many players online from the IP
    | Resumed               // registered, open session, stored IP is the joining IP
    | ExpiredToLimbo        // registered, open session, stored IP differs
    | RegisteredToLimbo     // registered, no open session or no stored record
    | UnregisteredOptional  // no auth record and registration optional
    | UnregisteredToLimbo   // no auth record and registration forced
  {
    /** The path got past the bypass list and both admission checks. */
    predicate Admits()
    {
      !(Bypassed? || RefusedRestricted? || RefusedCap?)
    }

    /** The path of a name with an auth record. */
    predicate Registered()
    {
      Resumed? || ExpiredToLimbo? || RegisteredToLimbo?
    }

    /** The path ends by scheduling the limbo runnable. */
    predicate EndsInLimbo()
    {
      ExpiredToLimbo? || RegisteredToLimbo? || UnregisteredToLimbo?
    }
  }

  /** The decisions of `processJoin`, in the order it takes them. */
  function PathOf(cfg: Config, player: Player, env: Env): (p: Path)
    requires ValidConfig(cfg)
    ensures p == Bypassed <==> Unrestricted(cfg, player)
    ensures p == RefusedRestricted <==> !Unrestricted(cfg, player) && Restricted(cfg, player)
    ensures p.Admits() <==> Admitted(cfg, player, env)
    ensures p.Registered() <==> Admitted(cfg, player, env) && env.authAvailable
    ensures p == Resumed <==> Admitted(cfg, player, env) && SessionResumable(player, env)
    ensures p == UnregisteredOptional <==>
              Admitted(cfg, player, env) && !env.authAvailable && !cfg.forceRegistration
    ensures p.EndsInLimbo() <==>
              Admitted(cfg, player, env) && !SessionResumable(player, env)
              && (env.authAvailable || cfg.forceRegistration)
  {
    if Unrestricted(cfg, player) then Bypassed
    else if Restricted(cfg, player) then RefusedRestricted
    else if !CapCheck(cfg, player, env).passed then RefusedCap
    else if env.authAvailable then
      if SessionActive(env) && env.storedAuth.Some? then
        if env.storedAuth.value.ip == player.ip then Resumed else ExpiredToLimbo
      else RegisteredToLimbo
    else if !cfg.forceRegistration then UnregisteredOptional
    else UnregisteredToLimbo
  }

  function OutcomeOf(p: Path): Outcome
  {
    match p
    case Bypassed => Ignored
    case RefusedRestricted => Kicked(NotOwnerError)
    case RefusedCap => Kicked(SameIpOnline)
    case Resumed => FastPathLogin
    case UnregisteredOptional => Unauthenticated
    case _ => Limbo
  }

  /** What a checked name's path does after the early effects, in order. */
  function AfterChecks(cfg: Config, player: Player, env: Env, tps: TicksPerSecond, p: Path): seq<Effect>
  {
    var registered := RegisteredEffects(cfg, player, env);
    var limbo := LimboTask(cfg, player, env, RegistrationTimeoutTicks(cfg, tps));
    match p
    case Bypassed => []
    case RefusedRestricted => RestrictionKick(cfg, player)
    case RefusedCap => CapCheck(cfg, player, env).effects
    case Resumed => registered + [Send(SessionReconnection), ForceLogin]
    case ExpiredToLimbo => registered + [Send(SessionExpired)] + limbo
    case RegisteredToLimbo => registered + limbo
    case UnregisteredOptional => [SetGroup(Unregistered)]
    case UnregisteredToLimbo => [SetGroup(Unregistered)] + limbo
  }

  /** The effects performed or scheduled along each path, in order: nothing
      for a bypassing name, otherwise the early effects and then the rest. */
  function TraceOf(cfg: Config, player: Player, env: Env, tps: TicksPerSecond, p: Path): seq<Effect>
  {
    if p.Bypassed? then [] else EarlyEffects(cfg, player) + AfterChecks(cfg, player, env, tps, p)
  }

  /** `processJoin`. */
  function ProcessJoin(cfg: Config, player: Player, env: Env, tps: TicksPerSecond): (r: JoinResult)
    requires ValidConfig(cfg)
    ensures r.outcome == Ignored <==> Unrestricted(cfg, player)
    ensures r.outcome.Kicked? <==> !Unrestricted(cfg, player) && !Admitted(cfg, player, env)
    ensures r.outcome == Kicked(NotOwnerError) <==> !Unrestricted(cfg, player) && Restricted(cfg, player)
    ensures r.outcome == FastPathLogin <==> Admitted(cfg, player, env) && SessionResumable(player, env)
    ensures r.outcome == Unauthenticated <==>
              Admitted(cfg, player, env) && !env.authAvailable && !cfg.forceRegistration
  {
    var p := PathOf(cfg, player, env);
    JoinResult(OutcomeOf(p), TraceOf(cfg, player, env, tps, p))
  }
}
