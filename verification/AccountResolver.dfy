/** The account resolver for Anchor instructions (internal/vm/solana/anchor.go): up to four passes over the
    accounts of an instruction, each resolving what it can from what is already resolved. */
module AccountResolver {
  import opened Bytes
  import opened Options
  import opened SnakeCase

  type PublicKey = k: seq<Byte> | |k| == 32 witness Zeros(32)

  datatype Seed = ConstSeed(value: seq<Byte>) | AccountSeed(path: string) | ArgSeed(path: string) | OtherSeed

  /** The program a PDA is derived against: the instruction's own, unless the IDL names another. */
  datatype Program = OwnProgram | ConstProgram(value: seq<Byte>) | AccountProgram(path: string)

  datatype Pda = Pda(seeds: seq<Seed>, program: Program)

  /** An account of the instruction; address is its fixed address, if the IDL gives one. */
  datatype Account = Account(name: string, address: Option<PublicKey>, signer: bool, writable: bool, pda: Option<Pda>)

  datatype Meta = Meta(key: PublicKey, signer: bool, writable: bool)

  /** A key with the bump it was derived with; 0 for keys that were not derived. */
  datatype Found = Found(key: PublicKey, bump: Byte)

  datatype Error = MintMissing | UnresolvedAccount | UnknownArg | UnknownSeedKind | NoProgramAddress | NoStrategy

  datatype Result<T> = Ok(value: T) | Err(error: Error)

  /** What resolution consults; find is FindProgramAddress. */
  datatype Env = Env(
    program: PublicKey,
    signer: PublicKey,
    mint: Option<PublicKey>,
    known: map<string, PublicKey>,
    args: string -> Option<seq<Byte>>,
    find: (seq<seq<Byte>>, PublicKey) -> Option<Found>)

  type Resolved = map<string, PublicKey>

  predicate IsMintName(name: string) {
    Snake(name) == "mint" || Snake(name) == "token_mint"
  }

  // ----- what an account resolves to, given what is resolved already -----

  /** The entry a seed's path refers to: under that name, or under one with the same snake case. */
  ghost predicate RefersTo(m: Resolved, path: string, k: string) {
    k in m && (k == path || (path !in m && Snake(k) == Snake(path)))
  }

  ghost predicate Matched(m: Resolved, path: string) {
    exists k :: RefersTo(m, path, k)
  }

  ghost function SeedBytes(env: Env, seed: Seed, m: Resolved): Result<seq<Byte>> {
    match seed
    case ConstSeed(value) => Ok(value)
    case AccountSeed(path) =>
      if IsMintName(path) then (match env.mint case None => Err(MintMissing) case Some(mint) => Ok(mint))
      else if Matched(m, path) then (var k :| RefersTo(m, path, k); Ok(m[k]))
      else if path in env.known then Ok(env.known[path])
      else Err(UnresolvedAccount)
    case ArgSeed(path) => (match env.args(path) case None => Err(UnknownArg) case Some(b) => Ok(b))
    case OtherSeed => Err(UnknownSeedKind)
  }

  ghost function AllSeeds(env: Env, seeds: seq<Seed>, m: Resolved): Result<seq<seq<Byte>>> {
    if seeds == [] then Ok([]) else
    match AllSeeds(env, seeds[..|seeds| - 1], m)
    case Err(e) => Err(e)
    case Ok(before) =>
      match SeedBytes(env, seeds[|seeds| - 1], m) case Err(e) => Err(e) case Ok(b) => Ok(before + [b])
  }

  /** What an account program falls back on while it is not resolved: silently, the instruction's own. */
  function Fallback(env: Env, path: string): PublicKey {
    if path in env.known then env.known[path] else env.program
  }

  function ProgramOf(env: Env, program: Program, m: Resolved): PublicKey {
    match program
    case OwnProgram => env.program
    case ConstProgram(value) => if |value| == 32 then value else env.program
    case AccountProgram(path) => if path in m then m[path] else Fallback(env, path)
  }

  ghost function Derived(env: Env, pda: Pda, m: Resolved): Result<Found> {
    match AllSeeds(env, pda.seeds, m)
    case Err(e) => Err(e)
    case Ok(bytes) =>
      match env.find(bytes, ProgramOf(env, pda.program, m)) case None => Err(NoProgramAddress) case Some(f) => Ok(f)
  }

  /** What a seed may contribute, case by case: a constant, an argument, the mint, or the account that the path
      names: the one of that very name, else one of the same snake case, else a well-known program. */
  ghost predicate SeedMeans(env: Env, seed: Seed, m: Resolved, r: Result<seq<Byte>>) {
    match seed
    case ConstSeed(value) => r == Ok(value)
    case ArgSeed(path) => if env.args(path).Some? then r == Ok(env.args(path).value) else r == Err(UnknownArg)
    case OtherSeed => r == Err(UnknownSeedKind)
    case AccountSeed(path) =>
      if Snake(path) == "mint" || Snake(path) == "token_mint" then
        (if env.mint.Some? then r.Ok? && r.value == env.mint.value else r == Err(MintMissing))
      else if path in m then r.Ok? && r.value == m[path]
      else if exists k :: k in m && Snake(k) == Snake(path) then
        exists k :: k in m && Snake(k) == Snake(path) && r.Ok? && r.value == m[k]
      else if path in env.known then r.Ok? && r.value == env.known[path]
      else r == Err(UnresolvedAccount)
  }

  /** The address is found for one byte string per seed, in the order of the seeds, and for the program that
      the IDL names, as far as it can be told by now. */
  ghost predicate FoundFrom(env: Env, pda: Pda, m: Resolved, bytes: seq<seq<Byte>>, f: Found) {
    && |bytes| == |pda.seeds|
    && (forall k :: 0 <= k < |bytes| ==> SeedMeans(env, pda.seeds[k], m, Ok(bytes[k])))
    && match pda.program
       case OwnProgram => env.find(bytes, env.program) == Some(f)
       case ConstProgram(value) => env.find(bytes, if |value| == 32 then value else env.program) == Some(f)
       case AccountProgram(path) =>
         if path in m then env.find(bytes, m[path]) == Some(f)
         else if path in env.known then env.find(bytes, env.known[path]) == Some(f)
         else env.find(bytes, env.program) == Some(f)
  }

  lemma SeedBytesMean(env: Env, seed: Seed, m: Resolved)
    ensures SeedMeans(env, seed, m, SeedBytes(env, seed, m))
  {
    if seed.AccountSeed? {
      assert Matched(m, seed.path) <==> seed.path in m || exists k :: k in m && Snake(k) == Snake(seed.path) by {
        if seed.path in m {
          assert RefersTo(m, seed.path, seed.path);
        } else if k :| k in m && Snake(k) == Snake(seed.path) {
          assert RefersTo(m, seed.path, k);
        }
      }
    }
  }

  /** All seeds together are the bytes of each, in order, and the error of the first one that has none. */
  lemma {:induction false} AllSeedsAre(env: Env, seeds: seq<Seed>, m: Resolved)
    ensures match AllSeeds(env, seeds, m)
            case Ok(bytes) =>
              |bytes| == |seeds| && forall k :: 0 <= k < |seeds| ==> SeedBytes(env, seeds[k], m) == Ok(bytes[k])
            case Err(e) =>
              exists i :: 0 <= i < |seeds| && SeedBytes(env, seeds[i], m) == Err(e)
                          && forall k :: 0 <= k < i ==> SeedBytes(env, seeds[k], m).Ok?
    decreases |seeds|
  {
    hide SeedBytes;
    if seeds != [] {
      var n := |seeds| - 1;
      AllSeedsAre(env, seeds[..n], m);
      if AllSeeds(env, seeds[..n], m).Err? {
        var e := AllSeeds(env, seeds[..n], m).error;
        var i :| 0 <= i < n && SeedBytes(env, seeds[..n][i], m) == Err(e)
                 && forall k :: 0 <= k < i ==> SeedBytes(env, seeds[..n][k], m).Ok?;
        assert forall k :: 0 <= k <= i ==> seeds[..n][k] == seeds[k];
      } else if SeedBytes(env, seeds[n], m).Err? {
        assert forall k :: 0 <= k < n ==> seeds[..n][k] == seeds[k];
      }
    }
  }

  /** A derivation that succeeds. */
  lemma DerivedFrom(env: Env, pda: Pda, m: Resolved) returns (bytes: seq<seq<Byte>>)
    requires Derived(env, pda, m).Ok?
    ensures FoundFrom(env, pda, m, bytes, Derived(env, pda, m).value)
  {
    hide SeedBytes, SeedMeans;
    bytes := AllSeeds(env, pda.seeds, m).value;
    AllSeedsAre(env, pda.seeds, m);
    forall k | 0 <= k < |bytes| ensures SeedMeans(env, pda.seeds[k], m, Ok(bytes[k])) {
      SeedBytesMean(env, pda.seeds[k], m);
    }
  }

  /** The key of an account that needs neither a fixed address nor a derivation. */
  function PlainKey(env: Env, acc: Account): Option<PublicKey> {
    if acc.signer then Some(env.signer)
    else if acc.name in env.known then Some(env.known[acc.name])
    else if IsMintName(acc.name) then env.mint
    else None
  }

  /** The precedence: fixed address, signer, well-known program, mint, PDA. */
  ghost function ValueOf(env: Env, acc: Account, m: Resolved): Result<Found> {
    if acc.address.Some? then Ok(Found(acc.address.value, 0))
    else if PlainKey(env, acc).Some? then Ok(Found(PlainKey(env, acc).value, 0))
    else if acc.pda.Some? then Derived(env, acc.pda.value, m)
    else Err(NoStrategy)
  }

  /** What an account's key and bump may be, strategy by strategy. */
  ghost predicate AccountMeans(env: Env, acc: Account, m: Resolved, f: Found) {
    if acc.address.Some? then f == Found(acc.address.value, 0)
    else if acc.signer then f == Found(env.signer, 0)
    else if acc.name in env.known then f == Found(env.known[acc.name], 0)
    else if (Snake(acc.name) == "mint" || Snake(acc.name) == "token_mint") && env.mint.Some? then
      f == Found(env.mint.value, 0)
    else acc.pda.Some? && exists bytes :: FoundFrom(env, acc.pda.value, m, bytes, f)
  }

  lemma ValueMeans(env: Env, acc: Account, m: Resolved)
    requires ValueOf(env, acc, m).Ok?
    ensures AccountMeans(env, acc, m, ValueOf(env, acc, m).value)
  {
    hide FoundFrom, Derived;
    if acc.address == None && PlainKey(env, acc) == None {
      var bytes := DerivedFrom(env, acc.pda.value, m);
    }
  }

  // ----- names -----

  ghost predicate Named(accts: seq<Account>, name: string) {
    exists i :: 0 <= i < |accts| && accts[i].name == name
  }

  /** No two accounts share a name, even up to snake case; ephemeral keys belong to accounts. */
  ghost predicate WellNamed(accts: seq<Account>, eph: Resolved) {
    && (forall i, j :: 0 <= i < j < |accts| ==> Snake(accts[i].name) != Snake(accts[j].name))
    && (forall k :: k in eph ==> Named(accts, k))
  }

  ghost predicate Unambiguous(m: Resolved) {
    forall k, l :: k in m && l in m && Snake(k) == Snake(l) ==> k == l
  }

  lemma NamesUnambiguous(accts: seq<Account>, eph: Resolved, m: Resolved)
    requires WellNamed(accts, eph) && forall k :: k in m ==> Named(accts, k)
    ensures Unambiguous(m)
  {
    forall k, l | k in m && l in m && Snake(k) == Snake(l) ensures k == l {
      var i :| 0 <= i < |accts| && accts[i].name == k;
      var j :| 0 <= j < |accts| && accts[j].name == l;
      assert i < j || j < i || i == j;
    }
  }

  lemma SameName(accts: seq<Account>, eph: Resolved, i: nat, j: nat)
    requires WellNamed(accts, eph) && i < |accts| && j < |accts| && Snake(accts[i].name) == Snake(accts[j].name)
    ensures i == j
  {
    assert i < j || j < i || i == j;
  }

  /** Accounts resolved before the first pass. */
  predicate Preset(acc: Account, eph: Resolved) {
    acc.name in eph || acc.address.Some?
  }

  /** The account is resolved by deriving its PDA. */
  predicate UsesPda(env: Env, acc: Account, eph: Resolved) {
    !Preset(acc, eph) && PlainKey(env, acc) == None && acc.pda.Some?
  }

  // ----- the log of a resolution -----

  /** What was resolved, and when; presets at time 0, everything else at a time of its own. */
  datatype Log = Log(m: Resolved, time: map<string, nat>)

  /** What had been resolved before time t. */
  ghost function Before(log: Log, t: nat): Resolved {
    map k | k in log.m && k in log.time && log.time[k] < t :: log.m[k]
  }

  function BumpOf(bumps: map<string, Byte>, name: string): Byte {
    if name in bumps then bumps[name] else 0
  }

  /** The account's key, and bump, is what its value was at the time it was resolved. */
  ghost predicate Recorded(env: Env, acc: Account, eph: Resolved, log: Log, bumps: map<string, Byte>)
    requires acc.name in log.m && acc.name in log.time
  {
    if acc.name in eph then
      log.m[acc.name] == eph[acc.name] && log.time[acc.name] == 0 && acc.name !in bumps
    else if acc.address.Some? then
      log.m[acc.name] == acc.address.value && log.time[acc.name] == 0 && acc.name !in bumps
    else
      && log.time[acc.name] >= 1
      && ValueOf(env, acc, Before(log, log.time[acc.name])) == Ok(Found(log.m[acc.name], BumpOf(bumps, acc.name)))
  }

  ghost predicate Logged(env: Env, accts: seq<Account>, eph: Resolved, log: Log, bumps: map<string, Byte>) {
    && log.time.Keys == log.m.Keys && bumps.Keys <= log.m.Keys
    && (forall k :: k in log.m ==> Named(accts, k))
    && (forall i :: 0 <= i < |accts| && Preset(accts[i], eph) ==> accts[i].name in log.m)
    && (forall i :: 0 <= i < |accts| && accts[i].name in log.m ==> Recorded(env, accts[i], eph, log, bumps))
  }

  ghost predicate Clocked(log: Log, clock: nat) {
    clock >= 1 && forall k :: k in log.time ==> log.time[k] < clock
  }

  /** By time c there was a moment, with the presets in place, at which the account could not be resolved. */
  ghost predicate Tried(env: Env, acc: Account, log: Log, c: nat) {
    exists t: nat :: 1 <= t <= c && ValueOf(env, acc, Before(log, t)).Err?
  }

  /** An account is put off behind a later one only because it could not be resolved yet. */
  ghost predicate Greedy(env: Env, accts: seq<Account>, eph: Resolved, log: Log)
    requires log.time.Keys == log.m.Keys
  {
    forall i, j :: 0 <= i < j < |accts| && accts[j].name in log.m
                   && !Preset(accts[i], eph) && !Preset(accts[j], eph) ==>
      (accts[i].name in log.m && log.time[accts[i].name] < log.time[accts[j].name])
      || Tried(env, accts[i], log, log.time[accts[j].name])
  }

  /** What a successful resolution leaves behind. */
  ghost predicate Run(env: Env, accts: seq<Account>, eph: Resolved, log: Log, bumps: map<string, Byte>) {
    && (forall i :: 0 <= i < |accts| ==> accts[i].name in log.m)
    && Logged(env, accts, eph, log, bumps) && Greedy(env, accts, eph, log)
  }

  // ----- a log only grows -----

  ghost function Extended(log: Log, name: string, v: PublicKey, clock: nat): Log {
    Log(log.m[name := v], log.time[name := clock])
  }

  function Bumped(bumps: map<string, Byte>, name: string, bump: Byte): map<string, Byte> {
    if bump > 0 then bumps[name := bump] else bumps
  }

  lemma BeforeStays(log: Log, name: string, v: PublicKey, clock: nat, t: nat)
    requires name !in log.m && t <= clock
    ensures Before(Extended(log, name, v, clock), t) == Before(log, t)
  {
    var next := Extended(log, name, v, clock);
    assert Before(next, t).Keys == Before(log, t).Keys;
  }

  lemma BeforeNow(log: Log, clock: nat)
    requires log.time.Keys == log.m.Keys && Clocked(log, clock)
    ensures Before(log, clock) == log.m
  {
  }

  lemma TriedStays(env: Env, acc: Account, log: Log, c: nat, name: string, v: PublicKey, clock: nat)
    requires Tried(env, acc, log, c) && name !in log.m && c <= clock
    ensures Tried(env, acc, Extended(log, name, v, clock), c)
  {
    var t: nat :| 1 <= t <= c && ValueOf(env, acc, Before(log, t)).Err?;
    BeforeStays(log, name, v, clock, t);
    hide ValueOf;
    assert ValueOf(env, acc, Before(Extended(log, name, v, clock), t)).Err?;
  }

  lemma RecordedStays(env: Env, acc: Account, eph: Resolved, log: Log, bumps: map<string, Byte>,
                      name: string, f: Found, clock: nat)
    requires acc.name in log.m && acc.name in log.time && acc.name != name && name !in log.m && Clocked(log, clock)
    requires Recorded(env, acc, eph, log, bumps)
    ensures Recorded(env, acc, eph, Extended(log, name, f.key, clock), Bumped(bumps, name, f.bump))
  {
    hide ValueOf, Before;
    BeforeStays(log, name, f.key, clock, log.time[acc.name]);
  }

  lemma RecordedNew(env: Env, acc: Account, eph: Resolved, log: Log, bumps: map<string, Byte>, f: Found, clock: nat)
    requires log.time.Keys == log.m.Keys && bumps.Keys <= log.m.Keys && Clocked(log, clock)
    requires acc.name !in log.m && !Preset(acc, eph) && ValueOf(env, acc, log.m) == Ok(f)
    ensures Recorded(env, acc, eph, Extended(log, acc.name, f.key, clock), Bumped(bumps, acc.name, f.bump))
  {
    BeforeStays(log, acc.name, f.key, clock, clock);
    BeforeNow(log, clock);
    hide ValueOf, Before;
  }

  /** Resolving one more account changes no key, no time and no derivation recorded before, and records the
      new one against everything resolved so far: entries are written once. */
  lemma LogGrows(env: Env, accts: seq<Account>, eph: Resolved, log: Log, bumps: map<string, Byte>, clock: nat,
                 i: nat, f: Found)
    requires WellNamed(accts, eph) && Logged(env, accts, eph, log, bumps) && Clocked(log, clock)
    requires i < |accts| && accts[i].name !in log.m && ValueOf(env, accts[i], log.m) == Ok(f)
    ensures var next := Extended(log, accts[i].name, f.key, clock);
            && Logged(env, accts, eph, next, Bumped(bumps, accts[i].name, f.bump)) && Clocked(next, clock + 1)
  {
    hide ValueOf, Before, Recorded, Extended, Bumped;
    var name := accts[i].name;
    var next, bumped := Extended(log, name, f.key, clock), Bumped(bumps, name, f.bump);
    NextKeys(accts, eph, log, bumps, clock, i, f);
    forall j | 0 <= j < |accts| && accts[j].name in next.m ensures Recorded(env, accts[j], eph, next, bumped) {
      if accts[j].name == name {
        SameName(accts, eph, i, j);
        RecordedNew(env, accts[i], eph, log, bumps, f, clock);
      } else {
        RecordedStays(env, accts[j], eph, log, bumps, name, f, clock);
      }
    }
    hide WellNamed, Named;
  }

  lemma NextKeys(accts: seq<Account>, eph: Resolved, log: Log, bumps: map<string, Byte>, clock: nat, i: nat, f: Found)
    requires log.time.Keys == log.m.Keys && bumps.Keys <= log.m.Keys && Clocked(log, clock)
    requires (forall k :: k in log.m ==> Named(accts, k)) && i < |accts|
    ensures var next, bumped := Extended(log, accts[i].name, f.key, clock), Bumped(bumps, accts[i].name, f.bump);
            && next.m.Keys == next.time.Keys == log.m.Keys + {accts[i].name} && bumped.Keys <= next.m.Keys
            && Clocked(next, clock + 1) && forall k :: k in next.m ==> Named(accts, k)
  {
    assert Named(accts, accts[i].name);
    hide Named;
  }

  /** Accounts listed before n are resolved, or have failed by now. */
  ghost predicate Visited(env: Env, accts: seq<Account>, log: Log, n: nat, clock: nat) {
    forall i :: 0 <= i < n <= |accts| ==> accts[i].name in log.m || Tried(env, accts[i], log, clock)
  }

  lemma GreedyGrows(env: Env, accts: seq<Account>, eph: Resolved, log: Log, clock: nat, n: nat, v: PublicKey)
    requires WellNamed(accts, eph) && log.time.Keys == log.m.Keys && Clocked(log, clock)
    requires Greedy(env, accts, eph, log) && n < |accts| && accts[n].name !in log.m
    requires Visited(env, accts, log, n, clock)
    ensures Greedy(env, accts, eph, Extended(log, accts[n].name, v, clock))
  {
    hide Tried;
    var name := accts[n].name;
    var next := Extended(log, name, v, clock);
    forall i, j | 0 <= i < j < |accts| && accts[j].name in next.m && !Preset(accts[i], eph) && !Preset(accts[j], eph)
      ensures (accts[i].name in next.m && next.time[accts[i].name] < next.time[accts[j].name])
              || Tried(env, accts[i], next, next.time[accts[j].name])
    {
      if accts[j].name == name {
        SameName(accts, eph, j, n);
        assert Snake(accts[i].name) != Snake(accts[j].name);
        if accts[i].name !in log.m {
          TriedStays(env, accts[i], log, clock, name, v, clock);
        }
      } else if !(accts[i].name in log.m && log.time[accts[i].name] < log.time[accts[j].name]) {
        TriedStays(env, accts[i], log, log.time[accts[j].name], name, v, clock);
      }
    }
  }

  lemma VisitedGrows(env: Env, accts: seq<Account>, log: Log, n: nat, clock: nat, v: PublicKey)
    requires Visited(env, accts, log, n, clock) && n < |accts| && accts[n].name !in log.m
    ensures Visited(env, accts, Extended(log, accts[n].name, v, clock), n + 1, clock + 1)
  {
    hide Tried;
    var next := Extended(log, accts[n].name, v, clock);
    forall i | 0 <= i < n + 1 ensures accts[i].name in next.m || Tried(env, accts[i], next, clock + 1) {
      if accts[i].name !in next.m {
        TriedStays(env, accts[i], log, clock, accts[n].name, v, clock);
        TriedLater(env, accts[i], next, clock);
      }
    }
  }

  lemma TriedLater(env: Env, acc: Account, log: Log, c: nat)
    requires Tried(env, acc, log, c)
    ensures Tried(env, acc, log, c + 1)
  {
    var t: nat :| 1 <= t <= c && ValueOf(env, acc, Before(log, t)).Err?;
    hide ValueOf;
    assert 1 <= t <= c + 1;
  }

  /** A failed visit. */
  lemma FailedNow(env: Env, acc: Account, log: Log, clock: nat)
    requires log.time.Keys == log.m.Keys && Clocked(log, clock) && ValueOf(env, acc, log.m).Err?
    ensures Tried(env, acc, log, clock)
  {
    BeforeNow(log, clock);
    hide ValueOf;
    assert ValueOf(env, acc, Before(log, clock)).Err?;
  }

  // ----- dependency ranks -----

  /** The seed names an account that must have been resolved before. */
  predicate DependsOn(env: Env, seed: Seed) {
    seed.AccountSeed? && !IsMintName(seed.path) && seed.path !in env.known
  }

  /** Some account the path can mean comes before the given rank. */
  ghost predicate RankedBefore(accts: seq<Account>, rank: map<string, nat>, path: string, r: nat) {
    exists j :: 0 <= j < |accts| && Snake(accts[j].name) == Snake(path)
                && accts[j].name in rank && rank[accts[j].name] < r
  }

  ghost predicate RankedAccount(env: Env, accts: seq<Account>, eph: Resolved, rank: map<string, nat>, acc: Account) {
    acc.name in rank && (UsesPda(env, acc, eph) ==>
      forall k :: 0 <= k < |acc.pda.value.seeds| && DependsOn(env, acc.pda.value.seeds[k]) ==>
        RankedBefore(accts, rank, acc.pda.value.seeds[k].path, rank[acc.name]))
  }

  /** Every PDA ranks above the accounts its seeds need. */
  ghost predicate Ranked(env: Env, accts: seq<Account>, eph: Resolved, rank: map<string, nat>) {
    forall i :: 0 <= i < |accts| ==> RankedAccount(env, accts, eph, rank, accts[i])
  }

  /** FindProgramAddress takes up to 16 seeds of at most 32 bytes each, the bump being one of them. */
  const MAX_SEEDS: nat := 15
  const MAX_SEED_LENGTH: nat := 32

  predicate Derivable(bytes: seq<seq<Byte>>) {
    |bytes| <= MAX_SEEDS && forall k :: 0 <= k < |bytes| ==> |bytes[k]| <= MAX_SEED_LENGTH
  }

  /** What is assumed of FindProgramAddress: within its limits it finds an address. */
  ghost predicate FindsAddresses(env: Env) {
    forall bytes, program :: Derivable(bytes) ==> env.find(bytes, program).Some?
  }

  predicate SeedSupplied(env: Env, seed: Seed) {
    match seed
    case ConstSeed(value) => |value| <= MAX_SEED_LENGTH
    case AccountSeed(path) => IsMintName(path) ==> env.mint.Some?
    case ArgSeed(path) => env.args(path).Some? && |env.args(path).value| <= MAX_SEED_LENGTH
    case OtherSeed => false
  }

  /** Nothing but an unresolved account could keep the PDA from being derived. */
  ghost predicate PdaSupplied(env: Env, pda: Pda) {
    |pda.seeds| <= MAX_SEEDS && forall k :: 0 <= k < |pda.seeds| ==> SeedSupplied(env, pda.seeds[k])
  }

  ghost predicate Supplied(env: Env, accts: seq<Account>, eph: Resolved) {
    forall i :: 0 <= i < |accts| && !Preset(accts[i], eph) && PlainKey(env, accts[i]) == None ==>
      accts[i].pda.Some? && PdaSupplied(env, accts[i].pda.value)
  }

  /** The passes suffice: ranks are at most 4, counting from the presets, and nothing else is missing. */
  ghost predicate Feasible(env: Env, accts: seq<Account>, eph: Resolved, rank: map<string, nat>) {
    && WellNamed(accts, eph) && Ranked(env, accts, eph, rank) && FindsAddresses(env) && Supplied(env, accts, eph)
    && forall i :: 0 <= i < |accts| ==>
         accts[i].name in rank && rank[accts[i].name] <= 4 && (rank[accts[i].name] == 0 ==> Preset(accts[i], eph))
  }

  /** Once everything of lower rank is resolved, an account's value can be computed. */
  lemma Resolvable(env: Env, accts: seq<Account>, eph: Resolved, rank: map<string, nat>, m: Resolved, i: nat)
    requires Ranked(env, accts, eph, rank) && FindsAddresses(env) && Supplied(env, accts, eph)
    requires i < |accts| && !Preset(accts[i], eph)
    requires forall j :: 0 <= j < |accts| && accts[j].name in rank && rank[accts[j].name] < rank[accts[i].name] ==>
               accts[j].name in m
    ensures ValueOf(env, accts[i], m).Ok?
  {
    hide AllSeeds, RankedBefore, IsMintName, SeedSupplied;
    var acc := accts[i];
    assert RankedAccount(env, accts, eph, rank, acc);
    if UsesPda(env, acc, eph) {
      var seeds := acc.pda.value.seeds;
      forall k | 0 <= k < |seeds|
        ensures SeedBytes(env, seeds[k], m).Ok? && |SeedBytes(env, seeds[k], m).value| <= MAX_SEED_LENGTH
      {
        SeedResolvable(env, accts, rank, m, seeds[k], rank[acc.name]);
      }
      SeedsOk(env, seeds, m);
    }
  }

  lemma SeedResolvable(env: Env, accts: seq<Account>, rank: map<string, nat>, m: Resolved, seed: Seed, r: nat)
    requires SeedSupplied(env, seed)
    requires DependsOn(env, seed) ==> RankedBefore(accts, rank, seed.path, r)
    requires forall j :: 0 <= j < |accts| && accts[j].name in rank && rank[accts[j].name] < r ==> accts[j].name in m
    ensures SeedBytes(env, seed, m).Ok? && |SeedBytes(env, seed, m).value| <= MAX_SEED_LENGTH
  {
    if DependsOn(env, seed) {
      var j :| 0 <= j < |accts| && Snake(accts[j].name) == Snake(seed.path)
               && accts[j].name in rank && rank[accts[j].name] < r;
      if seed.path in m {
        assert RefersTo(m, seed.path, seed.path);
      } else {
        assert RefersTo(m, seed.path, accts[j].name);
      }
    }
  }

  lemma {:induction false} SeedsOk(env: Env, seeds: seq<Seed>, m: Resolved)
    requires forall k :: 0 <= k < |seeds| ==>
               SeedBytes(env, seeds[k], m).Ok? && |SeedBytes(env, seeds[k], m).value| <= MAX_SEED_LENGTH
    ensures AllSeeds(env, seeds, m).Ok? && |AllSeeds(env, seeds, m).value| == |seeds|
    ensures forall k :: 0 <= k < |seeds| ==> |AllSeeds(env, seeds, m).value[k]| <= MAX_SEED_LENGTH
  {
    hide SeedBytes;
    if seeds != [] {
      SeedsOk(env, seeds[..|seeds| - 1], m);
    }
  }

  // ----- the resolver -----

  /** One account seed: under its own name, else under some name with the same snake case, in map order. */
  method FindResolved(m: Resolved, path: string) returns (pk: Option<PublicKey>)
    ensures pk.Some? <==> Matched(m, path)
    ensures pk.Some? ==> exists k :: RefersTo(m, path, k) && m[k] == pk.value
    ensures path in m ==> pk == Some(m[path])
    ensures pk == None ==> forall k :: k in m ==> Snake(k) != Snake(path)
    ensures pk.Some? ==> exists k :: k in m && Snake(k) == Snake(path) && m[k] == pk.value
  {
    if path in m {
      assert RefersTo(m, path, path);
      return Some(m[path]);
    }
    var left := m.Keys;
    while left != {}
      invariant left <= m.Keys
      invariant forall k :: k in m && k !in left ==> Snake(k) != Snake(path)
      decreases |left|
    {
      var k :| k in left;
      if Snake(k) == Snake(path) {
        assert RefersTo(m, path, k);
        return Some(m[k]);
      }
      left := left - {k};
    }
    return None;
  }

  method ComputeSeed(env: Env, seed: Seed, m: Resolved) returns (r: Result<seq<Byte>>)
    ensures SeedMeans(env, seed, m, r)
    ensures Unambiguous(m) ==> r == SeedBytes(env, seed, m)
  {
    match seed {
      case ConstSeed(value) => return Ok(value);
      case AccountSeed(path) =>
        if IsMintName(path) {
          if env.mint == None {
            return Err(MintMissing);
          }
          return Ok(env.mint.value);
        }
        var pk := FindResolved(m, path);
        if pk.Some? {
          return Ok(pk.value);
        }
        if path in env.known {
          return Ok(env.known[path]);
        }
        return Err(UnresolvedAccount);
      case ArgSeed(path) =>
        var arg := env.args(path);
        if arg == None {
          return Err(UnknownArg);
        }
        return Ok(arg.value);
      case OtherSeed => return Err(UnknownSeedKind);
    }
  }

  /** derivePDA: the seeds in order, then the program, then the search for the address. */
  method DerivePDA(env: Env, pda: Pda, m: Resolved) returns (r: Result<Found>)
    ensures Unambiguous(m) ==> r == Derived(env, pda, m)
    ensures r.Ok? ==> exists bytes :: FoundFrom(env, pda, m, bytes, r.value)
    ensures r.Err? && r.error != NoProgramAddress ==>
              exists i :: 0 <= i < |pda.seeds| && SeedMeans(env, pda.seeds[i], m, Err(r.error))
                          && forall k :: 0 <= k < i ==> exists b :: SeedMeans(env, pda.seeds[k], m, Ok(b))
  {
    hide SeedBytes, SeedMeans, Unambiguous;
    var seeds := pda.seeds;
    var bytes: seq<seq<Byte>> := [];
    for i := 0 to |seeds|
      invariant Unambiguous(m) ==> AllSeeds(env, seeds[..i], m) == Ok(bytes)
      invariant |bytes| == i && forall k :: 0 <= k < i ==> SeedMeans(env, seeds[k], m, Ok(bytes[k]))
    {
      var b := ComputeSeed(env, seeds[i], m);
      assert seeds[..i + 1][..i] == seeds[..i];
      if b.Err? {
        ghost var error := b.error;
        if Unambiguous(m) {
          SeedsFail(env, seeds, m, i, error);
        }
        return Err(b.error);
      }
      bytes := bytes + [b.value];
    }
    assert seeds[..|seeds|] == seeds;
    var program := env.program;
    match pda.program {
      case OwnProgram =>
      case ConstProgram(value) =>
        if |value| == 32 {
          program := value;
        }
      case AccountProgram(path) =>
        if path in m {
          program := m[path];
        } else if path in env.known {
          program := env.known[path];
        }
    }
    var found := env.find(bytes, program);
    if found == None {
      return Err(NoProgramAddress);
    }
    assert FoundFrom(env, pda, m, bytes, found.value);
    return Ok(found.value);
  }

  /** The first seed that fails decides the error. */
  lemma {:induction false} SeedsFail(env: Env, seeds: seq<Seed>, m: Resolved, i: nat, error: Error)
    requires i < |seeds| && AllSeeds(env, seeds[..i + 1], m) == Err(error)
    ensures AllSeeds(env, seeds, m) == Err(error)
    decreases |seeds|
  {
    hide SeedBytes;
    if i + 1 == |seeds| {
      assert seeds[..i + 1] == seeds;
    } else {
      assert seeds[..|seeds| - 1][..i + 1] == seeds[..i + 1];
      SeedsFail(env, seeds[..|seeds| - 1], m, i, error);
    }
  }

  /** The first strategy that applies. */
  method ResolveOneAccount(env: Env, acc: Account, m: Resolved) returns (r: Result<Found>)
    ensures Unambiguous(m) ==> r == ValueOf(env, acc, m)
    ensures r.Ok? ==> AccountMeans(env, acc, m, r.value)
    ensures r == Err(NoStrategy) ==> acc.pda == None && !acc.signer && acc.address == None
  {
    hide FoundFrom;
    if acc.address.Some? {
      return Ok(Found(acc.address.value, 0));
    }
    if acc.signer {
      return Ok(Found(env.signer, 0));
    }
    if acc.name in env.known {
      return Ok(Found(env.known[acc.name], 0));
    }
    var snake := ToSnakeCase(acc.name);
    if (snake == "mint" || snake == "token_mint") && env.mint.Some? {
      return Ok(Found(env.mint.value, 0));
    }
    if acc.pda.Some? {
      r := DerivePDA(env, acc.pda.value, m);
      return r;
    }
    return Err(NoStrategy);
  }

  // ----- the passes -----

  /** The map before the first pass: ephemeral keys, then fixed addresses. */
  method Presets(env: Env, accts: seq<Account>, eph: Resolved) returns (m: Resolved)
    ensures forall k :: k in eph ==> k in m && m[k] == eph[k]
    ensures forall j :: 0 <= j < |accts| && accts[j].address.Some? ==> accts[j].name in m
    ensures forall k :: k in m && k !in eph ==>
              exists i :: 0 <= i < |accts| && accts[i].name == k && accts[i].address == Some(m[k])
  {
    m := eph;
    for i := 0 to |accts|
      invariant forall k :: k in eph ==> k in m && m[k] == eph[k]
      invariant forall j :: 0 <= j < i && accts[j].address.Some? ==> accts[j].name in m
      invariant forall k :: k in m && k !in eph ==>
                  exists j :: 0 <= j < i && accts[j].name == k && accts[j].address == Some(m[k])
    {
      if accts[i].address.Some? && accts[i].name !in m {
        m := m[accts[i].name := accts[i].address.value];
      }
    }
  }

  ghost function FirstLog(m: Resolved): Log {
    Log(m, map k | k in m :: 0)
  }

  /** The state between two accounts of a pass. */
  ghost predicate Sound(env: Env, accts: seq<Account>, eph: Resolved, log: Log, bumps: map<string, Byte>, clock: nat) {
    WellNamed(accts, eph) ==>
      && Logged(env, accts, eph, log, bumps) && Clocked(log, clock)
      && Greedy(env, accts, eph, log) && Unambiguous(log.m)
  }

  lemma SoundAtFirst(env: Env, accts: seq<Account>, eph: Resolved, m: Resolved)
    requires forall k :: k in eph ==> k in m && m[k] == eph[k]
    requires forall j :: 0 <= j < |accts| && accts[j].address.Some? ==> accts[j].name in m
    requires forall k :: k in m && k !in eph ==>
               exists i :: 0 <= i < |accts| && accts[i].name == k && accts[i].address == Some(m[k])
    ensures Sound(env, accts, eph, FirstLog(m), map[], 1)
    ensures WellNamed(accts, eph) ==>
              forall i :: 0 <= i < |accts| && accts[i].name in m ==> Preset(accts[i], eph)
  {
    if WellNamed(accts, eph) {
      PresetsLogged(env, accts, eph, m);
      hide ValueOf, Before, Tried, Recorded, WellNamed, Named;
      NamesUnambiguous(accts, eph, m);
      hide Unambiguous;
    }
  }

  lemma PresetsLogged(env: Env, accts: seq<Account>, eph: Resolved, m: Resolved)
    requires WellNamed(accts, eph)
    requires forall k :: k in eph ==> k in m && m[k] == eph[k]
    requires forall j :: 0 <= j < |accts| && accts[j].address.Some? ==> accts[j].name in m
    requires forall k :: k in m && k !in eph ==>
               exists i :: 0 <= i < |accts| && accts[i].name == k && accts[i].address == Some(m[k])
    ensures Logged(env, accts, eph, FirstLog(m), map[])
    ensures forall i :: 0 <= i < |accts| && accts[i].name in m ==> Preset(accts[i], eph)
  {
    hide ValueOf, Before;
    var log := FirstLog(m);
    forall i | 0 <= i < |accts| && accts[i].name in m
      ensures Preset(accts[i], eph) && Recorded(env, accts[i], eph, log, map[])
    {
      if accts[i].name !in eph {
        var j :| 0 <= j < |accts| && accts[j].name == accts[i].name && accts[j].address == Some(m[accts[i].name]);
        SameName(accts, eph, i, j);
      }
    }
    forall k | k in m ensures Named(accts, k) {
    }
    hide Recorded, Named, WellNamed;
  }

  lemma SoundGrows(env: Env, accts: seq<Account>, eph: Resolved, log: Log, bumps: map<string, Byte>, clock: nat,
                   n: nat, f: Found)
    requires Sound(env, accts, eph, log, bumps, clock) && n < |accts| && accts[n].name !in log.m
    requires Unambiguous(log.m) ==> ValueOf(env, accts[n], log.m) == Ok(f)
    requires WellNamed(accts, eph) ==> Visited(env, accts, log, n, clock)
    ensures var next := Extended(log, accts[n].name, f.key, clock);
            && Sound(env, accts, eph, next, Bumped(bumps, accts[n].name, f.bump), clock + 1)
            && (WellNamed(accts, eph) ==> Visited(env, accts, next, n + 1, clock + 1))
  {
    hide ValueOf, Greedy, Visited, Unambiguous, Bumped;
    if WellNamed(accts, eph) {
      var next := Extended(log, accts[n].name, f.key, clock);
      LogGrows(env, accts, eph, log, bumps, clock, n, f);
      GreedyGrows(env, accts, eph, log, clock, n, f.key);
      VisitedGrows(env, accts, log, n, clock, f.key);
      NamesUnambiguous(accts, eph, next.m);
      hide Recorded, WellNamed, Clocked, Extended, Named;
    }
  }

  /** A failed visit is remembered. */
  lemma VisitFails(env: Env, accts: seq<Account>, eph: Resolved, log: Log, bumps: map<string, Byte>, clock: nat,
                   n: nat, error: Error)
    requires Sound(env, accts, eph, log, bumps, clock) && n < |accts|
    requires Unambiguous(log.m) ==> ValueOf(env, accts[n], log.m) == Err(error)
    requires WellNamed(accts, eph) ==> Visited(env, accts, log, n, clock)
    ensures WellNamed(accts, eph) ==> Visited(env, accts, log, n + 1, clock)
  {
    hide ValueOf, Greedy, Tried, Recorded, Unambiguous, WellNamed, Named;
    if WellNamed(accts, eph) {
      FailedNow(env, accts[n], log, clock);
    }
  }

  lemma VisitSkips(env: Env, accts: seq<Account>, log: Log, n: nat, clock: nat)
    requires n < |accts| && accts[n].name in log.m && Visited(env, accts, log, n, clock)
    ensures Visited(env, accts, log, n + 1, clock)
  {
    hide Tried;
  }

  lemma NothingVisited(env: Env, accts: seq<Account>, log: Log, clock: nat)
    ensures Visited(env, accts, log, 0, clock)
  {
  }

  // Progress of the passes

  ghost predicate Reached(accts: seq<Account>, rank: map<string, nat>, m: Resolved, r: nat, n: nat) {
    forall j :: 0 <= j < n <= |accts| && accts[j].name in rank && rank[accts[j].name] <= r ==> accts[j].name in m
  }

  /** Rank 0 is resolved before the first pass. */
  lemma PresetsReached(env: Env, accts: seq<Account>, eph: Resolved, rank: map<string, nat>, m: Resolved)
    requires forall k :: k in eph ==> k in m
    requires forall j :: 0 <= j < |accts| && accts[j].address.Some? ==> accts[j].name in m
    ensures Feasible(env, accts, eph, rank) ==> Reached(accts, rank, m, 0, |accts|)
  {
    hide WellNamed, Ranked, Supplied, FindsAddresses;
  }

  lemma NothingReached(accts: seq<Account>, rank: map<string, nat>, m: Resolved, r: nat)
    ensures Reached(accts, rank, m, r, 0)
  {
  }

  lemma ReachedGrows(accts: seq<Account>, rank: map<string, nat>, m: Resolved, next: Resolved, r: nat, r': nat, i: nat)
    requires m.Keys <= next.Keys && i < |accts|
    requires accts[i].name in next || (accts[i].name in rank ==> rank[accts[i].name] > r')
    ensures Reached(accts, rank, m, r, |accts|) ==> Reached(accts, rank, next, r, |accts|)
    ensures Reached(accts, rank, m, r', i) ==> Reached(accts, rank, next, r', i + 1)
  {
  }

  /** In a feasible instruction, an account is only put off to a later pass if its rank is higher. */
  lemma OnlyHigherRanksWait(env: Env, accts: seq<Account>, eph: Resolved, rank: map<string, nat>, log: Log,
                            bumps: map<string, Byte>, clock: nat, i: nat, pass: nat, error: Error)
    requires Sound(env, accts, eph, log, bumps, clock) && Feasible(env, accts, eph, rank)
    requires i < |accts| && accts[i].name !in log.m
    requires Unambiguous(log.m) ==> ValueOf(env, accts[i], log.m) == Err(error)
    requires Reached(accts, rank, log.m, pass, |accts|)
    ensures accts[i].name in rank && pass + 1 < rank[accts[i].name] <= 4
  {
    hide ValueOf, Greedy, Recorded, WellNamed, Ranked, Supplied, FindsAddresses, Unambiguous, Named, Clocked;
    if rank[accts[i].name] <= pass + 1 {
      Resolvable(env, accts, eph, rank, log.m, i);
    }
  }

  /** resolveAccountsWithEphemeral. The final check for accounts still unresolved cannot fail, because the
      last pass returns an error instead, so it is not repeated here. log tells what was resolved when. */
  method ResolveAccounts(env: Env, accts: seq<Account>, eph: Resolved, ghost rank: map<string, nat>)
    returns (result: Result<seq<Meta>>, bumps: map<string, Byte>, ghost log: Log)
    ensures result.Ok? ==>
              && |result.value| == |accts|
              && forall i :: 0 <= i < |accts| ==>
                   accts[i].name in log.m
                   && result.value[i] == Meta(log.m[accts[i].name], accts[i].signer, accts[i].writable)
    ensures result.Ok? && WellNamed(accts, eph) ==> Run(env, accts, eph, log, bumps)
    ensures Feasible(env, accts, eph, rank) ==> result.Ok?
  {
    hide Sound, Feasible, Reached, Run, Unambiguous, ValueOf, Visited, WellNamed;
    var resolved := Presets(env, accts, eph);
    bumps, log := map[], FirstLog(resolved);
    ghost var clock := 1;
    SoundAtFirst(env, accts, eph, resolved);
    PresetsReached(env, accts, eph, rank, resolved);
    for pass := 0 to 4
      invariant log.m == resolved && Sound(env, accts, eph, log, bumps, clock)
      invariant Feasible(env, accts, eph, rank) ==> Reached(accts, rank, resolved, pass, |accts|)
      invariant pass == 4 ==> forall j :: 0 <= j < |accts| ==> accts[j].name in resolved
    {
      NothingReached(accts, rank, resolved, pass + 1);
      NothingVisited(env, accts, log, clock);
      for i := 0 to |accts|
        invariant log.m == resolved && Sound(env, accts, eph, log, bumps, clock)
        invariant WellNamed(accts, eph) ==> Visited(env, accts, log, i, clock)
        invariant Feasible(env, accts, eph, rank) ==> Reached(accts, rank, resolved, pass, |accts|)
        invariant Feasible(env, accts, eph, rank) ==> Reached(accts, rank, resolved, pass + 1, i)
        invariant pass == 3 ==> forall j :: 0 <= j < i ==> accts[j].name in resolved
      {
        ghost var before := resolved;
        if accts[i].name !in resolved {
          var r := ResolveOneAccount(env, accts[i], resolved);
          match r {
            case Err(error) =>
              VisitFails(env, accts, eph, log, bumps, clock, i, error);
              if Feasible(env, accts, eph, rank) {
                OnlyHigherRanksWait(env, accts, eph, rank, log, bumps, clock, i, pass, error);
              }
              if pass == 3 {
                return Err(error), bumps, log;
              }
            case Ok(found) =>
              SoundGrows(env, accts, eph, log, bumps, clock, i, found);
              resolved := resolved[accts[i].name := found.key];
              log, clock := Extended(log, accts[i].name, found.key, clock), clock + 1;
              if found.bump > 0 {
                bumps := bumps[accts[i].name := found.bump];
              }
          }
        } else if WellNamed(accts, eph) {
          VisitSkips(env, accts, log, i, clock);
        }
        if Feasible(env, accts, eph, rank) {
          ReachedGrows(accts, rank, before, resolved, pass, pass + 1, i);
        }
      }
    }
    RunAtLast(env, accts, eph, log, bumps, clock);
    var metas: seq<Meta> := [];
    for i := 0 to |accts|
      invariant |metas| == i
      invariant forall j :: 0 <= j < i ==>
                  metas[j] == Meta(resolved[accts[j].name], accts[j].signer, accts[j].writable)
    {
      metas := metas + [Meta(resolved[accts[i].name], accts[i].signer, accts[i].writable)];
    }
    return Ok(metas), bumps, log;
  }

  lemma RunAtLast(env: Env, accts: seq<Account>, eph: Resolved, log: Log, bumps: map<string, Byte>, clock: nat)
    requires Sound(env, accts, eph, log, bumps, clock) && forall j :: 0 <= j < |accts| ==> accts[j].name in log.m
    ensures WellNamed(accts, eph) ==> Run(env, accts, eph, log, bumps)
  {
    hide Greedy, Logged, Clocked, Unambiguous, WellNamed;
    if WellNamed(accts, eph) {
      LoggedKeys(env, accts, eph, log, bumps);
    }
  }

  lemma LoggedKeys(env: Env, accts: seq<Account>, eph: Resolved, log: Log, bumps: map<string, Byte>)
    requires Logged(env, accts, eph, log, bumps)
    ensures log.time.Keys == log.m.Keys
  {
  }
}
