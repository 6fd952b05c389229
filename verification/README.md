# AuthMe join admission, modelled in Dafny

This project models the join-admission logic of AuthMe's `AsynchronousJoin`.
That is the process that runs when a player connects and decides several things:
- whether the name bypasses every check;
- whether a restricted name may connect from this address;
- whether too many players are already online from the IP;
- which permission group the player gets;
- whether an open session is resumed, thrown away or absent;
- whether the player is put in limbo to log in or register, and how.

`processJoin` becomes a pure function, `Join.ProcessJoin`. It takes a snapshot of four things:
- the configuration (`Join.Config`);
- the joining player (`Join.Player`: name, IP, optional host name, two permissions);
- what the data source, the session manager and the server answer for the lower-cased name (`Join.Env`);
- the server's ticks per second.

It returns how the join ends (`Ignored`, `Kicked(reason)`, `FastPathLogin`, `Unauthenticated` or `Limbo`). It also returns the ordered trace of effects the process performs or schedules (`Effects.Effect`). Each effect carries the thread discipline it is dispatched with (`Effects.Via`).

The two admission checks are pure functions:
- `Restriction.IsNameRestricted`: the `name;ip-or-host` allow-list, parsed with a model of Java's `String.split(";")`;
- `IpLimit.ValidatePlayerCountForIp`, with `IpLimit.CountOnlinePlayersByIp`: the per-IP cap.

Java's `toLowerCase`/`equalsIgnoreCase` (`Text`) and the 32-bit `int` product of the timeout and the tick rate (`Base.WrapInt32`) are written out explicitly.

The modules follow the structure of the class:
- `Base`: `Option` for Java `null`, and `int` wrap-around.
- `Text`: the string operations.
- `Effects`: messages, groups, effects, dispatch tags, and the outcome of a check.
- `Restriction`: `isNameRestricted`.
- `IpLimit`: `validatePlayerCountForIp` and `countOnlinePlayersByIp`.
- `Join`: `processJoin`, written as the path it takes (`Join.PathOf`) and the effects of that path.
- `JoinProperties`: the properties of the pipeline. They are stated first about the pieces of a trace, then about each path, and finally about `ProcessJoin` itself.

`processJoin` calls `createLimboPlayer` on every join that reaches the limbo runnable, without checking whether a limbo player already exists for the name. The model therefore proves only that one join creates exactly one limbo player.

## Model

| member | source | states |
|---|---|---|
| `Base.WrapInt32` | src/main/java/fr/xephi/authme/process/join/AsynchronousJoin.java:148 | The Java `int` result of an exact product: unchanged when the product fits in 32 bits, and always congruent to it modulo 2^32. |
| `Text.Lower` | src/main/java/fr/xephi/authme/process/join/AsynchronousJoin.java:74 | Lower-casing keeps the length, maps each character through the ASCII lower-case map, and leaves no upper-case letter. |
| `Text.LowerKeepsIdentity` | src/main/java/fr/xephi/authme/process/join/AsynchronousJoin.java:74 | The lower-cased name equals the typed name ignoring case. Lower-casing is idempotent, and it is the identity on lower-case names. |
| `Text.EqualsIgnoreCase` | src/main/java/fr/xephi/authme/process/join/AsynchronousJoin.java:187-189 | `equalsIgnoreCase`: equal strings are equal ignoring case, and strings equal ignoring case have the same length. The full characterisation is `Text.EqualsIgnoreCaseIsLowerEquality`. |
| `Text.EqualsIgnoreCaseIsLowerEquality` | src/main/java/fr/xephi/authme/process/join/AsynchronousJoin.java:187 | Two strings are equal ignoring case exactly when their lower-cased forms are equal. |
| `Text.EqualsIgnoreCaseTransitive` | src/main/java/fr/xephi/authme/process/join/AsynchronousJoin.java:209-210 | Equality ignoring case is transitive. |
| `Text.FieldsRoundTrip` | src/main/java/fr/xephi/authme/process/join/AsynchronousJoin.java:184 | The `;`-separated fields of an entry contain no `;`, and joining them with `;` gives back the entry. |
| `Text.DropTrailingEmpty` | src/main/java/fr/xephi/authme/process/join/AsynchronousJoin.java:184 | Dropping trailing empty fields leaves a prefix of the fields that does not end in an empty field, and only empty fields are dropped. |
| `Text.Split` | src/main/java/fr/xephi/authme/process/join/AsynchronousJoin.java:184 | `split(";")`: a string without `;` (the empty one included) comes back whole as one field. Otherwise the result is the `;`-separated fields with every trailing empty field dropped: a prefix of the fields that does not end in an empty field, with only empty fields after it. |
| `Text.SplitPair` | src/main/java/fr/xephi/authme/process/join/AsynchronousJoin.java:184-186 | An entry `n;v`, with no `;` in either part and a non-empty `v`, splits into exactly `[n, v]`: `args[0]` is `n` and `args[1]` is `v`. |
| `Restriction.ScanEntries` | src/main/java/fr/xephi/authme/process/join/AsynchronousJoin.java:182-194 | The entry loop, with `nameFound` carried over, answers true exactly when (`nameFound` holds or some entry names the player) and no entry for the name matches the IP exactly or the host name ignoring case. |
| `Restriction.IsNameRestricted` | src/main/java/fr/xephi/authme/process/join/AsynchronousJoin.java:177-195 | With the feature off, no name is restricted. With it on, a name is restricted exactly when some entry names it ignoring case and none of its entries allows the connection. A missing IP or host name skips that comparison. |
| `Restriction.EntryAdmitsItsIp` | src/main/java/fr/xephi/authme/process/join/AsynchronousJoin.java:184-190 | An entry `n;v` for the player's name admits the player from IP `v`, whatever the other entries say. |
| `Restriction.EntryAdmitsItsHost` | src/main/java/fr/xephi/authme/process/join/AsynchronousJoin.java:184-190 | An entry `n;h` for the player's name admits the player from any host name equal to `h` ignoring case. |
| `Restriction.SingleEntryRefusesOtherAddress` | src/main/java/fr/xephi/authme/process/join/AsynchronousJoin.java:182-194 | With only the entry `n;v`, the named player is refused from an IP other than `v` (compared with case) unless the host name equals `v` ignoring case. |
| `IpLimit.CountOnlinePlayersByIp` | src/main/java/fr/xephi/authme/process/join/AsynchronousJoin.java:220-228 | The count is at most the number of online players. It is 0 exactly when no online IP matches ignoring case, and it is the full number exactly when every online IP matches. |
| `IpLimit.CountIsMatchingSlots` | src/main/java/fr/xephi/authme/process/join/AsynchronousJoin.java:220-228 | The count equals the size of the set of online positions whose IP matches ignoring case. |
| `IpLimit.CountAppend` | src/main/java/fr/xephi/authme/process/join/AsynchronousJoin.java:220-228 | Counting over two lists of online players gives the sum of the two counts. |
| `IpLimit.CountIgnoresCase` | src/main/java/fr/xephi/authme/process/join/AsynchronousJoin.java:223 | Two IPs equal ignoring case have the same count. |
| `IpLimit.ValidatePlayerCountForIp` | src/main/java/fr/xephi/authme/process/join/AsynchronousJoin.java:206-218 | The check passes exactly when the cap is at most 0, or the player may have several accounts, or the IP is `127.0.0.1` or `localhost` ignoring case, or the count is not strictly above the cap. It schedules nothing when it passes, and exactly one same-IP kick when it fails. |
| `IpLimit.MorePlayersNeverHelp` | src/main/java/fr/xephi/authme/process/join/AsynchronousJoin.java:211 | A join refused by the cap stays refused when more players are online. |
| `IpLimit.VerdictIgnoresCase` | src/main/java/fr/xephi/authme/process/join/AsynchronousJoin.java:209-211 | The cap verdict is the same for two IPs equal ignoring case. |
| `IpLimit.CapOfTwoExample` | src/main/java/fr/xephi/authme/process/join/AsynchronousJoin.java:206-215 | With a cap of 2, a third player from one IP is refused, and a player alone on another IP is admitted. |
| `Join.RegistrationTimeoutTicks` | src/main/java/fr/xephi/authme/process/join/AsynchronousJoin.java:148 | The immunity ticks are the timeout times the tick rate whenever that product fits in an `int`, and 0 for a timeout of 0. |
| `Join.BlindnessTicks` | src/main/java/fr/xephi/authme/process/join/AsynchronousJoin.java:158-161 | The blindness length is always positive. It is the timeout ticks when those are positive, and 99999 otherwise. |
| `Join.PathOf` | src/main/java/fr/xephi/authme/process/join/AsynchronousJoin.java:73-165 | Each way out of `processJoin` is characterised: a bypass exactly for listed names; a restriction refusal exactly for restricted names; admission exactly when both checks pass; the registered branch exactly for admitted names with a record; resumption exactly for an open session whose stored IP is the joining IP; the optional-registration stop exactly without a record when registration is not forced; limbo in every other admitted case. |
| `Join.ProcessJoin` | src/main/java/fr/xephi/authme/process/join/AsynchronousJoin.java:73-165 | The outcome is `Ignored` exactly for bypassing names, a kick exactly when a check fails (the not-owner kick exactly for restricted names), a fast-path login exactly for a resumable session, and unauthenticated exactly without a record when registration is optional. |
| `JoinProperties.EarlyEffectsKinds` | src/main/java/fr/xephi/authme/process/join/AsynchronousJoin.java:81-88 | Before the checks, only the game-mode change and the social-spy switch happen: no login state is touched, no message is sent, and nothing runs in the synchronous runnable. |
| `JoinProperties.EarlyEffectsCounts` | src/main/java/fr/xephi/authme/process/join/AsynchronousJoin.java:81-88 | The early effects set no group, clear no flag or cache entry, send no session message and log nobody in. |
| `JoinProperties.RegisteredEffectsCounts` | src/main/java/fr/xephi/authme/process/join/AsynchronousJoin.java:109-127 | The registered branch sets the registered-unauthenticated group once. It clears the logged-in flag and the cache entry of the lower-cased name once each exactly when a session or login flag exists. It sends nothing, logs nobody in and creates no limbo. |
| `JoinProperties.LimboTaskCounts` | src/main/java/fr/xephi/authme/process/join/AsynchronousJoin.java:150-164 | The limbo runnable sets no group, clears no flag or cache entry, sends no session message and logs nobody in. |
| `JoinProperties.LimboTaskContents` | src/main/java/fr/xephi/authme/process/join/AsynchronousJoin.java:150-164 | The limbo runnable creates exactly one limbo player, for the lower-cased name, marked registered exactly when a record exists. It sends nothing, kicks nobody and logs nobody in. |
| `JoinProperties.LimboTaskSteps` | src/main/java/fr/xephi/authme/process/join/AsynchronousJoin.java:150-164 | The limbo runnable starts by creating the limbo player, then sets the damage immunity to the timeout ticks, and ends with the join commands. All of it runs in the synchronous runnable. |
| `JoinProperties.LimboTaskOptions` | src/main/java/fr/xephi/authme/process/join/AsynchronousJoin.java:155-162 | The motd runs exactly when Essentials is present and its motd is enabled. The blindness is added exactly when configured, never before the motd, and always with a positive duration. |
| `JoinProperties.RestrictionKickTrace` | src/main/java/fr/xephi/authme/process/join/AsynchronousJoin.java:90-101 | A restriction refusal schedules exactly one kick, and every kick in the trace carries the not-owner message. No login state changes and no limbo is created. |
| `JoinProperties.RestrictionKickOrder` | src/main/java/fr/xephi/authme/process/join/AsynchronousJoin.java:94-97 | The restriction refusal ends with the kick, followed by the ban of the joining IP exactly when ban-unknown-IP is on. |
| `JoinProperties.CapKickTrace` | src/main/java/fr/xephi/authme/process/join/AsynchronousJoin.java:211-215 | A cap refusal ends with one kick, and every kick in the trace carries the same-IP message. There is no ban, no login-state change and no limbo. |
| `JoinProperties.ResumedTrace` | src/main/java/fr/xephi/authme/process/join/AsynchronousJoin.java:109-132 | A resumed session sets the registered group once, clears the flag and the cache entry once each, creates no limbo, and ends with the reconnection message followed by the forced login. |
| `JoinProperties.RegisteredEffectsEndWithClearing` | src/main/java/fr/xephi/authme/process/join/AsynchronousJoin.java:124-127 | With a session or login flag, the registered branch up to the IP comparison ends by clearing the logged-in flag and then the cache entry of the lower-cased name. |
| `JoinProperties.ResumedClearsFirst` | src/main/java/fr/xephi/authme/process/join/AsynchronousJoin.java:124-131 | On resuming, the flag and the cache entry are cleared, in that order, before the reconnection message. |
| `JoinProperties.ExpiredClearsFirst` | src/main/java/fr/xephi/authme/process/join/AsynchronousJoin.java:124-134 | On an expired session, the flag and the cache entry are cleared, in that order, before the expired message. |
| `JoinProperties.ExpiredTrace` | src/main/java/fr/xephi/authme/process/join/AsynchronousJoin.java:109-164 | An expired session sets the registered group once, clears the flag and the cache entry once each, and sends the expired message once. It sends no reconnection message and forces no login. |
| `JoinProperties.RegisteredLimboTrace` | src/main/java/fr/xephi/authme/process/join/AsynchronousJoin.java:107-164 | A registered name with no session or login flag, or with one but no stored record, sets the registered group once, clears the flag and the cache entry exactly when a session or login flag exists, and sends no session message and forces no login. |
| `JoinProperties.OptionalTrace` | src/main/java/fr/xephi/authme/process/join/AsynchronousJoin.java:138-145 | With registration optional, an unregistered name gets only the early effects and then the unregistered group, which comes last. |
| `JoinProperties.UnregisteredLimboTrace` | src/main/java/fr/xephi/authme/process/join/AsynchronousJoin.java:138-164 | With registration forced, an unregistered name gets the unregistered group once, never the registered one, and no flag or cache change. |
| `JoinProperties.BypassedNameUntouched` | src/main/java/fr/xephi/authme/process/join/AsynchronousJoin.java:77-79 | A join is ignored exactly when the lower-cased name is on the unrestricted list, and then nothing at all happens. |
| `JoinProperties.RestrictionRefusal` | src/main/java/fr/xephi/authme/process/join/AsynchronousJoin.java:90-101 | A restricted name is kicked exactly once, and every kick carries the not-owner message. Its IP is banned right after the kick exactly when configured. There is no login-state change and no limbo. |
| `JoinProperties.CapRefusal` | src/main/java/fr/xephi/authme/process/join/AsynchronousJoin.java:103-105 | A join over the cap is kicked exactly once, and every kick carries the same-IP message. There is no ban, no login-state change and no limbo. |
| `JoinProperties.GroupFollowsRegistration` | src/main/java/fr/xephi/authme/process/join/AsynchronousJoin.java:107-146 | An admitted player gets the registered-unauthenticated group once when a record exists, and the unregistered group once otherwise, never the other one. |
| `JoinProperties.OptionalRegistrationStopsAtGroup` | src/main/java/fr/xephi/authme/process/join/AsynchronousJoin.java:138-145 | Without a record and with registration optional, the join ends unauthenticated right after the group step, with no limbo and no flag or cache change. |
| `JoinProperties.SessionClearedExactlyOnce` | src/main/java/fr/xephi/authme/process/join/AsynchronousJoin.java:124-127 | For an admitted name, the logged-in flag and the cache entry of the lower-cased name are cleared once each when a record exists and a session or login flag is present, whatever the stored record; otherwise they are never cleared. |
| `JoinProperties.SessionBranchOutcomes` | src/main/java/fr/xephi/authme/process/join/AsynchronousJoin.java:124-152 | With a record and an open session, the flag and then the cache entry are cleared before any session message. A stored IP equal to the joining IP ends with the reconnection message and a forced login, with no limbo. Another stored IP sends the expired message once and ends in limbo. No stored record ends in limbo with neither message. |
| `JoinProperties.LimboRunnableLast` | src/main/java/fr/xephi/authme/process/join/AsynchronousJoin.java:150-164 | A join ending in limbo ends with exactly the limbo runnable, nothing before it runs in the synchronous runnable, and exactly one limbo player is created, for the lower-cased name. |
| `JoinProperties.SyncWorkComesLast` | src/main/java/fr/xephi/authme/process/join/AsynchronousJoin.java:148-164 | In a join ending in limbo, everything after the first effect run in the synchronous runnable also runs there. |
| `JoinProperties.NoLimboOutsideLimbo` | src/main/java/fr/xephi/authme/process/join/AsynchronousJoin.java:77-145 | A join that returns before the limbo step creates no limbo player. |
| `JoinProperties.LimboStepOrder` | src/main/java/fr/xephi/authme/process/join/AsynchronousJoin.java:148-164 | In limbo the trace holds the limbo creation immediately followed by the immunity of timeout × tick-rate ticks, ends with the join commands, holds the motd exactly when wanted, and holds the blindness exactly when configured. |
| `JoinProperties.DisabledTimeout` | src/main/java/fr/xephi/authme/process/join/AsynchronousJoin.java:148-161 | With a timeout of 0, the immunity is 0 ticks and any blindness lasts 99999 ticks. |
| `JoinProperties.NewPlayerWaitsInLimbo` | src/main/java/fr/xephi/authme/process/join/AsynchronousJoin.java:73-164 | For a new player "bob" with restrictions and the cap off, registration forced, a 30 s timeout and 20 ticks per second: limbo, the unregistered group, one limbo player for "bob", 600 ticks of immunity and no kick. |

## Left out

- Thread dispatch (`runTask`, `scheduleSyncTaskFromOptionallyAsyncTask`, `runTaskOptionallyAsync`) is recorded only as a tag per effect. The concurrency itself belongs to the server.
- The inventory protection event is recorded only as being fired. Its cancellation and the `updateInventory` call are not modelled, because they do not affect the join.
- The game-mode change and the Essentials social-spy switch are recorded as opaque effects.
- `LimboService`, `DataSource`, `SessionManager`, `PlayerCache`, `AsynchronousLogin.forceLogin`, `CommandManager`, message retrieval, `server.banIP` and potion effects are not part of this model. Their calls appear as effects, and their answers are inputs in `Join.Env`.
- Host-name resolution is I/O. The host name is an optional input of the player.
- `BukkitService.TICKS_PER_SECOND` is not part of this model. It is a positive `int` parameter.
- Text.EqualsIgnoreCase: its own contract states only reflexivity and equal lengths. The statement that it is equality of the lower-cased strings is the lemma `Text.EqualsIgnoreCaseIsLowerEquality`. Putting it in the predicate's contract would bring lower-casing into every proof that compares IPs.
- Case mapping covers ASCII letters only. Java's full Unicode `toLowerCase`/`equalsIgnoreCase` is not modelled.
- `String.split` is modelled for the literal separator `;` only, which is the only one used. The general regular-expression split is not modelled.
- Restriction entries without a second field would make the Java code throw an exception. When the feature is on, the model requires every entry to have a name and an address field (`Join.ValidConfig`).
- The joining player's IP is taken to be a known string. `PlayerUtils.getPlayerIp` is not part of this model. The online list holds every online player's IP, the joining player's included.
- No property claims that limbo players are unique per name across joins, because the class does not enforce it.
- `Join.ProcessJoin`: its own contract speaks only of the outcome. The trace properties are proved in the `JoinProperties` lemmas.
