/** What the account resolver guarantees (internal/vm/solana/anchor.go): exactly when its keys fit together
    in the final map, and why they do not depend on the order in which the accounts are listed. */
module ResolvedAccounts {
  import opened Bytes
  import opened Options
  import opened SnakeCase
  import opened AccountResolver

  /** The order of resolution is itself a ranking. */
  lemma RunRanked(env: Env, accts: seq<Account>, eph: Resolved, log: Log, bumps: map<string, Byte>)
    requires Run(env, accts, eph, log, bumps)
    ensures Ranked(env, accts, eph, log.time)
  {
    hide Greedy;
    forall i | 0 <= i < |accts| ensures RankedAccount(env, accts, eph, log.time, accts[i]) {
      var acc := accts[i];
      if UsesPda(env, acc, eph) {
        RunDerives(env, accts, eph, log, bumps, i);
        var seeds, before := acc.pda.value.seeds, Before(log, log.time[acc.name]);
        forall k | 0 <= k < |seeds| && DependsOn(env, seeds[k])
          ensures RankedBefore(accts, log.time, seeds[k].path, log.time[acc.name])
        {
          SeedsWereOk(env, seeds, before, k);
          SeedWasResolved(env, accts, log, seeds[k], log.time[acc.name]);
        }
      }
    }
  }

  /** A PDA of a run was derived at its time. */
  lemma RunDerives(env: Env, accts: seq<Account>, eph: Resolved, log: Log, bumps: map<string, Byte>, i: nat)
    requires Run(env, accts, eph, log, bumps) && i < |accts| && UsesPda(env, accts[i], eph)
    ensures accts[i].name in log.m && accts[i].name in log.time && log.time[accts[i].name] >= 1
    ensures var acc := accts[i];
            var before := Before(log, log.time[acc.name]);
            && AllSeeds(env, acc.pda.value.seeds, before).Ok?
            && Derived(env, acc.pda.value, before) == Ok(Found(log.m[acc.name], BumpOf(bumps, acc.name)))
  {
    hide Greedy, AllSeeds, Before;
    assert Recorded(env, accts[i], eph, log, bumps);
  }

  lemma {:induction false} SeedsWereOk(env: Env, seeds: seq<Seed>, m: Resolved, k: nat)
    requires AllSeeds(env, seeds, m).Ok? && k < |seeds|
    ensures SeedBytes(env, seeds[k], m).Ok?
    decreases |seeds|
  {
    hide SeedBytes;
    if k < |seeds| - 1 {
      SeedsWereOk(env, seeds[..|seeds| - 1], m, k);
    }
  }

  lemma SeedWasResolved(env: Env, accts: seq<Account>, log: Log, seed: Seed, t: nat)
    requires SeedBytes(env, seed, Before(log, t)).Ok? && DependsOn(env, seed)
    requires forall k :: k in log.m ==> Named(accts, k)
    ensures RankedBefore(accts, log.time, seed.path, t)
  {
    var k :| RefersTo(Before(log, t), seed.path, k);
    assert Named(accts, k);
    var j :| 0 <= j < |accts| && accts[j].name == k;
    assert Snake(accts[j].name) == Snake(seed.path);
  }

  /** What every account of a successful resolution has got: its ephemeral key, else what the first strategy that
      applies gives in the map of its moment, for a PDA the address found for its seeds in their order. */
  lemma RunMeans(env: Env, accts: seq<Account>, eph: Resolved, log: Log, bumps: map<string, Byte>, i: nat)
    requires Run(env, accts, eph, log, bumps) && i < |accts|
    ensures accts[i].name in log.m && accts[i].name in log.time
    ensures var (name, bump) := (accts[i].name, BumpOf(bumps, accts[i].name));
            if name in eph then log.m[name] == eph[name] && bump == 0
            else AccountMeans(env, accts[i], Before(log, log.time[name]), Found(log.m[name], bump))
  {
    hide Greedy, ValueOf, Before, AccountMeans;
    var acc := accts[i];
    assert Recorded(env, acc, eph, log, bumps);
    if acc.name !in eph {
      var t := log.time[acc.name];
      if acc.address.Some? {
        FixedMeans(env, acc, Before(log, t));
      } else {
        ValueMeans(env, acc, Before(log, t));
      }
    }
  }

  lemma FixedMeans(env: Env, acc: Account, m: Resolved)
    requires acc.address.Some?
    ensures AccountMeans(env, acc, m, Found(acc.address.value, 0))
  {
  }

  // ----- when the final map bears out what was derived -----

  /** The seed fell back on a well-known program before an account of that name, with another key, came. */
  ghost predicate SeedOvertaken(env: Env, accts: seq<Account>, log: Log, seed: Seed, t: nat) {
    && seed.AccountSeed? && !IsMintName(seed.path) && seed.path in env.known
    && exists j :: 0 <= j < |accts| && Overtakes(env, accts[j], log, seed.path, t)
  }

  predicate Overtakes(env: Env, acc: Account, log: Log, path: string, t: nat)
    requires path in env.known
  {
    && Snake(acc.name) == Snake(path)
    && acc.name in log.m && acc.name in log.time && log.time[acc.name] >= t && log.m[acc.name] != env.known[path]
  }

  /** Likewise for the program that the PDA is derived against. */
  predicate ProgramOvertaken(env: Env, log: Log, program: Program, t: nat) {
    && program.AccountProgram? && program.path in log.m && program.path in log.time
    && log.time[program.path] >= t && log.m[program.path] != Fallback(env, program.path)
  }

  /** The seed gives the same bytes in the final map as at time t. */
  ghost predicate SeedFinal(env: Env, log: Log, seed: Seed, t: nat) {
    SeedBytes(env, seed, Before(log, t)) == SeedBytes(env, seed, log.m)
  }

  ghost predicate ProgramFinal(env: Env, log: Log, program: Program, t: nat) {
    ProgramOf(env, program, Before(log, t)) == ProgramOf(env, program, log.m)
  }

  /** The seeds and the program of the PDA are those of the final map. */
  ghost predicate InputsFinal(env: Env, pda: Pda, log: Log, t: nat) {
    && (forall k :: 0 <= k < |pda.seeds| ==> SeedFinal(env, log, pda.seeds[k], t))
    && ProgramFinal(env, log, pda.program, t)
  }

  ghost predicate Overtaken(env: Env, accts: seq<Account>, pda: Pda, log: Log, t: nat) {
    || (exists k :: 0 <= k < |pda.seeds| && SeedOvertaken(env, accts, log, pda.seeds[k], t))
    || ProgramOvertaken(env, log, pda.program, t)
  }

  lemma SeedFinalIff(env: Env, accts: seq<Account>, eph: Resolved, log: Log, seed: Seed, t: nat)
    requires WellNamed(accts, eph) && log.time.Keys == log.m.Keys && forall k :: k in log.m ==> Named(accts, k)
    requires SeedBytes(env, seed, Before(log, t)).Ok?
    ensures SeedFinal(env, log, seed, t) <==> !SeedOvertaken(env, accts, log, seed, t)
  {
    if seed.AccountSeed? && !IsMintName(seed.path) {
      NamesUnambiguous(accts, eph, log.m);
      if Matched(Before(log, t), seed.path) {
        SeedMatchedBefore(env, accts, log, seed, t);
      } else {
        SeedFellBack(env, accts, eph, log, seed, t);
      }
    }
  }

  /** A seed that had been resolved keeps its bytes, and nothing overtakes it. */
  lemma SeedMatchedBefore(env: Env, accts: seq<Account>, log: Log, seed: Seed, t: nat)
    requires Unambiguous(log.m) && log.time.Keys == log.m.Keys
    requires seed.AccountSeed? && !IsMintName(seed.path) && Matched(Before(log, t), seed.path)
    ensures SeedFinal(env, log, seed, t) && !SeedOvertaken(env, accts, log, seed, t)
  {
    var before, path := Before(log, t), seed.path;
    var k :| RefersTo(before, path, k);
    assert k in log.m && Snake(k) == Snake(path) && log.time[k] < t;
    forall l | l in log.m && Snake(l) == Snake(path) ensures l == k {
    }
    assert RefersTo(log.m, path, k);
    assert forall l :: RefersTo(log.m, path, l) ==> l == k;
    assert forall l :: RefersTo(before, path, l) ==> l == k;
    hide Unambiguous;
  }

  /** A seed that fell back on a well-known program keeps its bytes unless it is overtaken. */
  lemma SeedFellBack(env: Env, accts: seq<Account>, eph: Resolved, log: Log, seed: Seed, t: nat)
    requires Unambiguous(log.m) && log.time.Keys == log.m.Keys && forall k :: k in log.m ==> Named(accts, k)
    requires seed.AccountSeed? && !IsMintName(seed.path) && !Matched(Before(log, t), seed.path)
    requires SeedBytes(env, seed, Before(log, t)).Ok?
    ensures SeedFinal(env, log, seed, t) <==> !SeedOvertaken(env, accts, log, seed, t)
  {
    var before, path := Before(log, t), seed.path;
    assert path in env.known && SeedBytes(env, seed, before).value == env.known[path];
    AnyMatches(before, path);
    AnyMatches(log.m, path);
    assert forall k :: k in log.m && log.time[k] < t ==> k in before;
    if Matched(log.m, path) {
      var k :| RefersTo(log.m, path, k);
      assert Named(accts, k);
      var j :| 0 <= j < |accts| && accts[j].name == k;
      assert forall l :: RefersTo(log.m, path, l) ==> l == k;
      assert SeedBytes(env, seed, log.m).Ok? && SeedBytes(env, seed, log.m).value == log.m[k];
      assert Overtakes(env, accts[j], log, path, t) <==> log.m[k] != env.known[path];
    }
  }

  lemma AnyMatches(m: Resolved, path: string)
    ensures forall k :: k in m && Snake(k) == Snake(path) ==> Matched(m, path)
  {
    forall k | k in m && Snake(k) == Snake(path) ensures Matched(m, path) {
      assert RefersTo(m, path, if path in m then path else k);
    }
  }

  /** For every successful resolution and every PDA in it: the seeds and the program that its key was derived
      from are those of the final map if and only if none of them was overtaken, that is, unless one fell back
      before an account it names was resolved to another key. */
  lemma InputsFinalIff(env: Env, accts: seq<Account>, eph: Resolved, log: Log, bumps: map<string, Byte>, i: nat)
    requires WellNamed(accts, eph) && Run(env, accts, eph, log, bumps)
    requires i < |accts| && UsesPda(env, accts[i], eph)
    ensures accts[i].name in log.m && accts[i].name in log.time
    ensures var t := log.time[accts[i].name];
            InputsFinal(env, accts[i].pda.value, log, t) <==> !Overtaken(env, accts, accts[i].pda.value, log, t)
  {
    RunDerives(env, accts, eph, log, bumps, i);
    hide Greedy, Recorded, WellNamed, UsesPda, SeedOvertaken, SeedBytes, Before, SeedFinal, ProgramFinal;
    var pda, t := accts[i].pda.value, log.time[accts[i].name];
    forall k | 0 <= k < |pda.seeds|
      ensures SeedFinal(env, log, pda.seeds[k], t) <==> !SeedOvertaken(env, accts, log, pda.seeds[k], t)
    {
      SeedsWereOk(env, pda.seeds, Before(log, t), k);
      SeedFinalIff(env, accts, eph, log, pda.seeds[k], t);
    }
    ProgramFinalIff(env, log, pda.program, t);
    hide AllSeeds, Derived, ProgramOvertaken, Logged;
  }

  lemma ProgramFinalIff(env: Env, log: Log, program: Program, t: nat)
    requires log.time.Keys == log.m.Keys
    ensures ProgramFinal(env, log, program, t) <==> !ProgramOvertaken(env, log, program, t)
  {
  }

  // ----- solutions -----

  /** The account's key is what its value is in this very map. */
  ghost predicate Settled(env: Env, acc: Account, eph: Resolved, m: Resolved) {
    && acc.name in m
    && if acc.name in eph then m[acc.name] == eph[acc.name]
       else ValueOf(env, acc, m).Ok? && ValueOf(env, acc, m).value.key == m[acc.name]
  }

  /** Every account has its key, and every PDA is derived from the keys in this same map. */
  ghost predicate Solution(env: Env, accts: seq<Account>, eph: Resolved, m: Resolved) {
    && (forall i :: 0 <= i < |accts| ==> Settled(env, accts[i], eph, m))
    && (forall k :: k in m ==> Named(accts, k))
  }

  ghost predicate NoneOvertaken(env: Env, accts: seq<Account>, eph: Resolved, log: Log) {
    forall i :: 0 <= i < |accts| && UsesPda(env, accts[i], eph) ==>
      accts[i].name in log.time && !Overtaken(env, accts, accts[i].pda.value, log, log.time[accts[i].name])
  }

  lemma {:induction false} AllSeedsAgree(env: Env, seeds: seq<Seed>, m: Resolved, m': Resolved)
    requires forall k :: 0 <= k < |seeds| ==> SeedBytes(env, seeds[k], m) == SeedBytes(env, seeds[k], m')
    ensures AllSeeds(env, seeds, m) == AllSeeds(env, seeds, m')
  {
    hide SeedBytes;
    if seeds != [] {
      AllSeedsAgree(env, seeds[..|seeds| - 1], m, m');
    }
  }

  /** A successful resolution in which no PDA is overtaken is a solution. */
  lemma RunIsSolution(env: Env, accts: seq<Account>, eph: Resolved, log: Log, bumps: map<string, Byte>)
    requires WellNamed(accts, eph) && Run(env, accts, eph, log, bumps) && NoneOvertaken(env, accts, eph, log)
    ensures Solution(env, accts, eph, log.m)
  {
    hide Greedy, Overtaken, Settled, UsesPda, WellNamed;
    forall i | 0 <= i < |accts| ensures Settled(env, accts[i], eph, log.m) {
      if UsesPda(env, accts[i], eph) {
        InputsFinalIff(env, accts, eph, log, bumps, i);
        DerivedIsSettled(env, accts, eph, log, bumps, i);
      } else {
        OtherIsSettled(env, accts[i], eph, log, bumps);
      }
    }
  }

  lemma OtherIsSettled(env: Env, acc: Account, eph: Resolved, log: Log, bumps: map<string, Byte>)
    requires acc.name in log.m && acc.name in log.time && Recorded(env, acc, eph, log, bumps) && !UsesPda(env, acc, eph)
    ensures Settled(env, acc, eph, log.m)
  {
    hide Derived, Before, PlainKey;
  }

  lemma DerivedIsSettled(env: Env, accts: seq<Account>, eph: Resolved, log: Log, bumps: map<string, Byte>, i: nat)
    requires Run(env, accts, eph, log, bumps) && i < |accts| && UsesPda(env, accts[i], eph)
    requires accts[i].name in log.time && InputsFinal(env, accts[i].pda.value, log, log.time[accts[i].name])
    ensures Settled(env, accts[i], eph, log.m)
  {
    hide Greedy, AllSeeds, Before, SeedBytes;
    RunDerives(env, accts, eph, log, bumps, i);
    AllSeedsAgree(env, accts[i].pda.value.seeds, Before(log, log.time[accts[i].name]), log.m);
    hide Run, Logged;
  }

  // ----- a condition on the instruction alone -----

  /** The account is one that a seed's well-known program name also fits. */
  predicate SeedNames(env: Env, seed: Seed, acc: Account) {
    seed.AccountSeed? && !IsMintName(seed.path) && seed.path in env.known && Snake(acc.name) == Snake(seed.path)
  }

  predicate ProgramNames(program: Program, acc: Account) {
    program.AccountProgram? && program.path == acc.name
  }

  /** Account j is there before account i's PDA is derived, or it has the key fallen back on anyway. */
  predicate Harmless(env: Env, accts: seq<Account>, eph: Resolved, i: nat, j: nat, fallback: PublicKey)
    requires j < |accts|
  {
    Preset(accts[j], eph) || (PlainKey(env, accts[j]).Some? && (j < i || PlainKey(env, accts[j]).value == fallback))
  }

  /** Accounts that the well-known programs of PDA i could be mistaken for are harmless to it. */
  ghost predicate Unshadowed(env: Env, accts: seq<Account>, eph: Resolved, i: nat, pda: Pda) {
    forall j :: 0 <= j < |accts| ==>
      && (forall k :: 0 <= k < |pda.seeds| && SeedNames(env, pda.seeds[k], accts[j]) ==>
            Harmless(env, accts, eph, i, j, env.known[pda.seeds[k].path]))
      && (ProgramNames(pda.program, accts[j]) ==>
            Harmless(env, accts, eph, i, j, Fallback(env, pda.program.path)))
  }

  ghost predicate NoShadowing(env: Env, accts: seq<Account>, eph: Resolved) {
    forall i :: 0 <= i < |accts| && UsesPda(env, accts[i], eph) ==>
      Unshadowed(env, accts, eph, i, accts[i].pda.value)
  }

  ghost predicate Tidy(env: Env, accts: seq<Account>, eph: Resolved) {
    WellNamed(accts, eph) && NoShadowing(env, accts, eph)
  }

  /** In a run, a harmless account is resolved before the PDA or has the fallback's key. */
  lemma HarmlessInRun(env: Env, accts: seq<Account>, eph: Resolved, log: Log, bumps: map<string, Byte>,
                      i: nat, j: nat, fallback: PublicKey)
    requires Run(env, accts, eph, log, bumps)
    requires i < |accts| && j < |accts| && UsesPda(env, accts[i], eph) && Harmless(env, accts, eph, i, j, fallback)
    ensures accts[j].name in log.m && accts[j].name in log.time && accts[i].name in log.time
    ensures log.time[accts[j].name] < log.time[accts[i].name] || log.m[accts[j].name] == fallback
  {
    hide Derived, Before;
    assert Recorded(env, accts[i], eph, log, bumps) && Recorded(env, accts[j], eph, log, bumps);
    if !Preset(accts[j], eph) && j < i {
      assert !Tried(env, accts[j], log, log.time[accts[i].name]);
    }
  }

  /** If no account shadows another's seeds or program, every successful resolution is a solution. */
  lemma TidyRunIsSolution(env: Env, accts: seq<Account>, eph: Resolved, log: Log, bumps: map<string, Byte>)
    requires Tidy(env, accts, eph) && Run(env, accts, eph, log, bumps)
    ensures NoneOvertaken(env, accts, eph, log) && Solution(env, accts, eph, log.m)
  {
    forall i | 0 <= i < |accts| && UsesPda(env, accts[i], eph)
      ensures accts[i].name in log.time && !Overtaken(env, accts, accts[i].pda.value, log, log.time[accts[i].name])
    {
      UnshadowedNotOvertaken(env, accts, eph, log, bumps, i);
    }
    hide Run, Solution, Overtaken, UsesPda, WellNamed, NoShadowing;
    RunIsSolution(env, accts, eph, log, bumps);
  }

  lemma UnshadowedNotOvertaken(env: Env, accts: seq<Account>, eph: Resolved, log: Log, bumps: map<string, Byte>,
                               i: nat)
    requires Run(env, accts, eph, log, bumps) && i < |accts| && UsesPda(env, accts[i], eph)
    requires Unshadowed(env, accts, eph, i, accts[i].pda.value)
    ensures accts[i].name in log.m && accts[i].name in log.time
    ensures !Overtaken(env, accts, accts[i].pda.value, log, log.time[accts[i].name])
  {
    RunDerives(env, accts, eph, log, bumps, i);
    hide Greedy, Recorded, UsesPda, Derived, AllSeeds, Harmless, IsMintName, Fallback;
    var pda, t := accts[i].pda.value, log.time[accts[i].name];
    forall k, j | 0 <= k < |pda.seeds| && 0 <= j < |accts| && SeedNames(env, pda.seeds[k], accts[j])
      ensures !Overtakes(env, accts[j], log, pda.seeds[k].path, t)
    {
      HarmlessInRun(env, accts, eph, log, bumps, i, j, env.known[pda.seeds[k].path]);
    }
    if ProgramOvertaken(env, log, pda.program, t) {
      assert Named(accts, pda.program.path);
      var j :| 0 <= j < |accts| && accts[j].name == pda.program.path;
      HarmlessInRun(env, accts, eph, log, bumps, i, j, Fallback(env, pda.program.path));
    }
    hide Logged, Unshadowed;
  }

  // ----- the condition is exact for PDAs that the presets suffice for -----

  /** The seed needs no account but a preset one. */
  ghost predicate SeedReady(env: Env, accts: seq<Account>, eph: Resolved, seed: Seed) {
    DependsOn(env, seed) ==>
      exists j :: 0 <= j < |accts| && Preset(accts[j], eph) && Snake(accts[j].name) == Snake(seed.path)
  }

  ghost predicate Ready(env: Env, accts: seq<Account>, eph: Resolved, pda: Pda) {
    PdaSupplied(env, pda) && forall k :: 0 <= k < |pda.seeds| ==> SeedReady(env, accts, eph, pda.seeds[k])
  }

  /** Once the presets are in place, a ready PDA can be derived. */
  lemma ReadyResolves(env: Env, accts: seq<Account>, eph: Resolved, acc: Account, m: Resolved)
    requires FindsAddresses(env) && UsesPda(env, acc, eph) && Ready(env, accts, eph, acc.pda.value)
    requires forall j :: 0 <= j < |accts| && Preset(accts[j], eph) ==> accts[j].name in m
    ensures ValueOf(env, acc, m).Ok?
  {
    hide AllSeeds, SeedSupplied, SeedBytes, SeedReady, IsMintName;
    var seeds := acc.pda.value.seeds;
    forall k | 0 <= k < |seeds|
      ensures SeedBytes(env, seeds[k], m).Ok? && |SeedBytes(env, seeds[k], m).value| <= MAX_SEED_LENGTH
    {
      ReadySeedResolves(env, accts, eph, seeds[k], m);
    }
    SeedsOk(env, seeds, m);
  }

  lemma ReadySeedResolves(env: Env, accts: seq<Account>, eph: Resolved, seed: Seed, m: Resolved)
    requires SeedReady(env, accts, eph, seed) && SeedSupplied(env, seed)
    requires forall j :: 0 <= j < |accts| && Preset(accts[j], eph) ==> accts[j].name in m
    ensures SeedBytes(env, seed, m).Ok? && |SeedBytes(env, seed, m).value| <= MAX_SEED_LENGTH
  {
    hide IsMintName;
    if DependsOn(env, seed) {
      var j :| 0 <= j < |accts| && Preset(accts[j], eph) && Snake(accts[j].name) == Snake(seed.path);
      AnyMatches(m, seed.path);
    }
  }

  /** So it never waits, and every account that is listed after it and is not preset comes later. */
  lemma ReadyGoesFirst(env: Env, accts: seq<Account>, eph: Resolved, log: Log, bumps: map<string, Byte>, i: nat, j: nat)
    requires Run(env, accts, eph, log, bumps) && FindsAddresses(env)
    requires i < j < |accts| && UsesPda(env, accts[i], eph) && Ready(env, accts, eph, accts[i].pda.value)
    requires !Preset(accts[j], eph)
    ensures accts[i].name in log.time && accts[j].name in log.time
    ensures log.time[accts[i].name] < log.time[accts[j].name]
  {
    var late := log.time[accts[j].name];
    forall t: nat | 1 <= t <= late ensures ValueOf(env, accts[i], Before(log, t)).Ok? {
      PresetsBefore(env, accts, eph, log, bumps, t);
      ReadyResolves(env, accts, eph, accts[i], Before(log, t));
    }
    hide ValueOf, Before, Ready, FindsAddresses, Recorded;
    assert !Tried(env, accts[i], log, late);
  }

  lemma PresetsBefore(env: Env, accts: seq<Account>, eph: Resolved, log: Log, bumps: map<string, Byte>, t: nat)
    requires Run(env, accts, eph, log, bumps) && t >= 1
    ensures forall j :: 0 <= j < |accts| && Preset(accts[j], eph) ==> accts[j].name in Before(log, t)
  {
    hide Greedy, ValueOf;
    forall j | 0 <= j < |accts| && Preset(accts[j], eph) ensures accts[j].name in Before(log, t) {
      assert Recorded(env, accts[j], eph, log, bumps);
    }
  }

  /** A plain account gets its plain key. */
  lemma PlainInRun(env: Env, accts: seq<Account>, eph: Resolved, log: Log, bumps: map<string, Byte>, j: nat)
    requires Run(env, accts, eph, log, bumps) && j < |accts|
    requires !Preset(accts[j], eph) && PlainKey(env, accts[j]).Some?
    ensures accts[j].name in log.m && log.m[accts[j].name] == PlainKey(env, accts[j]).value
  {
    hide Greedy, Before, PlainKey;
    assert Recorded(env, accts[j], eph, log, bumps);
  }

  /** The account bears a name that the PDA falls back on. */
  ghost predicate FallsBackOn(env: Env, pda: Pda, acc: Account) {
    ProgramNames(pda.program, acc) || exists k :: 0 <= k < |pda.seeds| && SeedNames(env, pda.seeds[k], acc)
  }

  /** The accounts that bear such a name need no derivation. */
  ghost predicate PlainNames(env: Env, accts: seq<Account>, eph: Resolved, pda: Pda) {
    forall j :: 0 <= j < |accts| && FallsBackOn(env, pda, accts[j]) ==>
      Preset(accts[j], eph) || PlainKey(env, accts[j]).Some?
  }

  /** An account that is not harmless to a ready PDA is resolved after it, to another key. */
  lemma HarmfulInRun(env: Env, accts: seq<Account>, eph: Resolved, log: Log, bumps: map<string, Byte>,
                     i: nat, j: nat, fallback: PublicKey)
    requires Run(env, accts, eph, log, bumps) && FindsAddresses(env) && i < |accts| && j < |accts|
    requires UsesPda(env, accts[i], eph) && Ready(env, accts, eph, accts[i].pda.value)
    requires Preset(accts[j], eph) || PlainKey(env, accts[j]).Some?
    requires !Harmless(env, accts, eph, i, j, fallback)
    ensures accts[i].name in log.time && accts[j].name in log.m && accts[j].name in log.time
    ensures log.time[accts[j].name] >= log.time[accts[i].name] && log.m[accts[j].name] != fallback
  {
    hide Run, Ready, PlainKey;
    PlainInRun(env, accts, eph, log, bumps, j);
    assert i != j;
    ReadyGoesFirst(env, accts, eph, log, bumps, i, j);
  }

  /** For a PDA that the presets suffice for, what can be checked before the call decides: its seeds and its
      program are those of the final map if and only if no account with a fallback name of it is listed after
      it with a key other than the one fallen back on. */
  lemma ReadyFinalIff(env: Env, accts: seq<Account>, eph: Resolved, log: Log, bumps: map<string, Byte>, i: nat)
    requires WellNamed(accts, eph) && Run(env, accts, eph, log, bumps) && FindsAddresses(env)
    requires i < |accts| && UsesPda(env, accts[i], eph)
    requires Ready(env, accts, eph, accts[i].pda.value) && PlainNames(env, accts, eph, accts[i].pda.value)
    ensures accts[i].name in log.m && accts[i].name in log.time
    ensures InputsFinal(env, accts[i].pda.value, log, log.time[accts[i].name])
       <==> Unshadowed(env, accts, eph, i, accts[i].pda.value)
  {
    hide WellNamed, Run, Ready, Preset, PlainKey, InputsFinal, FindsAddresses;
    InputsFinalIff(env, accts, eph, log, bumps, i);
    if Unshadowed(env, accts, eph, i, accts[i].pda.value) {
      UnshadowedNotOvertaken(env, accts, eph, log, bumps, i);
    } else {
      ShadowedIsOvertaken(env, accts, eph, log, bumps, i);
    }
    hide Unshadowed, Overtaken, PlainNames;
  }

  lemma ShadowedIsOvertaken(env: Env, accts: seq<Account>, eph: Resolved, log: Log, bumps: map<string, Byte>, i: nat)
    requires Run(env, accts, eph, log, bumps) && FindsAddresses(env) && i < |accts| && UsesPda(env, accts[i], eph)
    requires Ready(env, accts, eph, accts[i].pda.value) && PlainNames(env, accts, eph, accts[i].pda.value)
    requires !Unshadowed(env, accts, eph, i, accts[i].pda.value)
    ensures accts[i].name in log.time && Overtaken(env, accts, accts[i].pda.value, log, log.time[accts[i].name])
  {
    hide Run, Ready, FindsAddresses, Preset, PlainKey, Fallback, IsMintName;
    var pda := accts[i].pda.value;
    if j, k :| 0 <= j < |accts| && 0 <= k < |pda.seeds| && SeedNames(env, pda.seeds[k], accts[j])
               && !Harmless(env, accts, eph, i, j, env.known[pda.seeds[k].path]) {
      hide Harmless;
      HarmfulInRun(env, accts, eph, log, bumps, i, j, env.known[pda.seeds[k].path]);
      assert Overtakes(env, accts[j], log, pda.seeds[k].path, log.time[accts[i].name]);
      assert SeedOvertaken(env, accts, log, pda.seeds[k], log.time[accts[i].name]);
    } else {
      var j :| 0 <= j < |accts| && ProgramNames(pda.program, accts[j])
               && !Harmless(env, accts, eph, i, j, Fallback(env, pda.program.path));
      hide Harmless;
      HarmfulInRun(env, accts, eph, log, bumps, i, j, Fallback(env, pda.program.path));
    }
  }

  // ----- the solution does not depend on the order of the accounts -----

  /** Both lists hold the same accounts. */
  ghost predicate SameAccounts(accts: seq<Account>, other: seq<Account>) {
    (forall acc :: acc in accts ==> acc in other) && (forall acc :: acc in other ==> acc in accts)
  }

  /** No PDA falls back on a name that another PDA bears. */
  ghost predicate PlainFallbacks(env: Env, accts: seq<Account>, eph: Resolved) {
    forall i :: 0 <= i < |accts| && UsesPda(env, accts[i], eph) ==>
      PlainNames(env, accts, eph, accts[i].pda.value)
  }

  lemma SolutionOfSame(env: Env, accts: seq<Account>, other: seq<Account>, eph: Resolved, m: Resolved)
    requires SameAccounts(accts, other) && Solution(env, other, eph, m)
    ensures Solution(env, accts, eph, m)
  {
    hide Settled;
    forall i | 0 <= i < |accts| ensures Settled(env, accts[i], eph, m) {
      assert accts[i] in other;
    }
    forall k | k in m ensures Named(accts, k) {
      var j :| 0 <= j < |other| && other[j].name == k;
      assert other[j] in accts;
    }
  }

  lemma SameKeys(env: Env, accts: seq<Account>, eph: Resolved, m: Resolved, m': Resolved)
    requires Solution(env, accts, eph, m) && Solution(env, accts, eph, m')
    ensures m.Keys == m'.Keys
  {
    forall k | k in m ensures k in m' {
      var j :| 0 <= j < |accts| && accts[j].name == k;
      assert Settled(env, accts[j], eph, m');
    }
    forall k | k in m' ensures k in m {
      var j :| 0 <= j < |accts| && accts[j].name == k;
      assert Settled(env, accts[j], eph, m);
    }
  }

  /** Presets and plain accounts have one key in any solution. */
  lemma PlainAgrees(env: Env, acc: Account, eph: Resolved, m: Resolved, m': Resolved)
    requires Settled(env, acc, eph, m) && Settled(env, acc, eph, m')
    requires Preset(acc, eph) || PlainKey(env, acc).Some?
    ensures m[acc.name] == m'[acc.name]
  {
    hide Derived, PlainKey;
  }

  /** What two solutions have been found to agree on: ranks below r, and whatever is no PDA. */
  ghost predicate AgreeBelow(env: Env, accts: seq<Account>, eph: Resolved, rank: map<string, nat>, r: nat,
                             m: Resolved, m': Resolved) {
    forall j :: 0 <= j < |accts| && accts[j].name in rank
                && (rank[accts[j].name] < r || Preset(accts[j], eph) || PlainKey(env, accts[j]).Some?) ==>
      accts[j].name in m && accts[j].name in m' && m[accts[j].name] == m'[accts[j].name]
  }

  lemma SeedsAgree(env: Env, accts: seq<Account>, eph: Resolved, rank: map<string, nat>, i: nat, k: nat,
                   m: Resolved, m': Resolved)
    requires WellNamed(accts, eph) && PlainFallbacks(env, accts, eph) && Ranked(env, accts, eph, rank)
    requires m.Keys == m'.Keys && forall l :: l in m ==> Named(accts, l)
    requires i < |accts| && UsesPda(env, accts[i], eph) && k < |accts[i].pda.value.seeds|
    requires accts[i].name in rank && AgreeBelow(env, accts, eph, rank, rank[accts[i].name], m, m')
    ensures SeedBytes(env, accts[i].pda.value.seeds[k], m) == SeedBytes(env, accts[i].pda.value.seeds[k], m')
  {
    var seed := accts[i].pda.value.seeds[k];
    if seed.AccountSeed? && !IsMintName(seed.path) {
      NamesUnambiguous(accts, eph, m);
      assert forall l :: RefersTo(m, seed.path, l) <==> RefersTo(m', seed.path, l);
      if Matched(m, seed.path) {
        var l :| RefersTo(m, seed.path, l);
        assert forall l' :: RefersTo(m, seed.path, l') ==> l' == l;
        MatchAgrees(env, accts, eph, rank, i, k, m, m', l);
      }
    }
  }

  lemma MatchAgrees(env: Env, accts: seq<Account>, eph: Resolved, rank: map<string, nat>, i: nat, k: nat,
                    m: Resolved, m': Resolved, l: string)
    requires WellNamed(accts, eph) && PlainFallbacks(env, accts, eph) && Ranked(env, accts, eph, rank)
    requires m.Keys == m'.Keys && (forall l :: l in m ==> Named(accts, l)) && l in m
    requires i < |accts| && UsesPda(env, accts[i], eph) && k < |accts[i].pda.value.seeds|
    requires accts[i].name in rank && AgreeBelow(env, accts, eph, rank, rank[accts[i].name], m, m')
    requires var seed := accts[i].pda.value.seeds[k];
             seed.AccountSeed? && !IsMintName(seed.path) && Snake(l) == Snake(seed.path)
    ensures m[l] == m'[l]
  {
    hide IsMintName, PlainKey;
    var seed := accts[i].pda.value.seeds[k];
    assert Named(accts, l);
    var j :| 0 <= j < |accts| && accts[j].name == l;
    assert RankedAccount(env, accts, eph, rank, accts[i]) && RankedAccount(env, accts, eph, rank, accts[j]);
    if DependsOn(env, seed) {
      var b :| 0 <= b < |accts| && Snake(accts[b].name) == Snake(seed.path)
               && accts[b].name in rank && rank[accts[b].name] < rank[accts[i].name];
      SameName(accts, eph, b, j);
    } else {
      assert SeedNames(env, seed, accts[j]);
    }
    hide WellNamed, Ranked;
  }

  lemma ProgramsAgree(env: Env, accts: seq<Account>, eph: Resolved, rank: map<string, nat>, i: nat,
                      m: Resolved, m': Resolved)
    requires PlainFallbacks(env, accts, eph) && Ranked(env, accts, eph, rank)
    requires m.Keys == m'.Keys && forall l :: l in m ==> Named(accts, l)
    requires i < |accts| && UsesPda(env, accts[i], eph)
    requires accts[i].name in rank && AgreeBelow(env, accts, eph, rank, rank[accts[i].name], m, m')
    ensures ProgramOf(env, accts[i].pda.value.program, m) == ProgramOf(env, accts[i].pda.value.program, m')
  {
    hide PlainKey, SeedNames;
    var program := accts[i].pda.value.program;
    if program.AccountProgram? && program.path in m {
      var j :| 0 <= j < |accts| && accts[j].name == program.path;
      assert ProgramNames(program, accts[j]);
      assert RankedAccount(env, accts, eph, rank, accts[j]);
    }
  }

  lemma {:induction false} SolutionsAgreeAt(env: Env, accts: seq<Account>, eph: Resolved, rank: map<string, nat>,
                                            m: Resolved, m': Resolved, i: nat)
    requires WellNamed(accts, eph) && PlainFallbacks(env, accts, eph) && Ranked(env, accts, eph, rank)
    requires Solution(env, accts, eph, m) && Solution(env, accts, eph, m') && i < |accts|
    ensures accts[i].name in m && accts[i].name in m' && m[accts[i].name] == m'[accts[i].name]
    decreases if i < |accts| && accts[i].name in rank then rank[accts[i].name] else 0
  {
    var acc := accts[i];
    assert RankedAccount(env, accts, eph, rank, acc);
    assert Settled(env, acc, eph, m) && Settled(env, acc, eph, m');
    hide PlainFallbacks, Settled, WellNamed, Ranked;
    if UsesPda(env, acc, eph) {
      forall j | 0 <= j < |accts| && accts[j].name in rank
                 && (rank[accts[j].name] < rank[acc.name] || Preset(accts[j], eph) || PlainKey(env, accts[j]).Some?)
        ensures accts[j].name in m && accts[j].name in m' && m[accts[j].name] == m'[accts[j].name]
      {
        if rank[accts[j].name] < rank[acc.name] {
          SolutionsAgreeAt(env, accts, eph, rank, m, m', j);
        } else {
          SettledIn(env, accts, eph, m, j);
          SettledIn(env, accts, eph, m', j);
          PlainAgrees(env, accts[j], eph, m, m');
        }
      }
      PdaAgrees(env, accts, eph, rank, m, m', i);
    } else {
      OtherwiseAgrees(env, acc, eph, m, m');
    }
  }

  lemma SettledIn(env: Env, accts: seq<Account>, eph: Resolved, m: Resolved, j: nat)
    requires Solution(env, accts, eph, m) && j < |accts|
    ensures Settled(env, accts[j], eph, m) && accts[j].name in m
  {
  }

  lemma OtherwiseAgrees(env: Env, acc: Account, eph: Resolved, m: Resolved, m': Resolved)
    requires Settled(env, acc, eph, m) && Settled(env, acc, eph, m') && !UsesPda(env, acc, eph)
    ensures acc.name in m && acc.name in m' && m[acc.name] == m'[acc.name]
  {
    hide Derived, PlainKey;
  }

  lemma PdaAgrees(env: Env, accts: seq<Account>, eph: Resolved, rank: map<string, nat>, m: Resolved, m': Resolved,
                  i: nat)
    requires WellNamed(accts, eph) && PlainFallbacks(env, accts, eph) && Ranked(env, accts, eph, rank)
    requires Solution(env, accts, eph, m) && Solution(env, accts, eph, m')
    requires i < |accts| && UsesPda(env, accts[i], eph) && accts[i].name in rank
    requires AgreeBelow(env, accts, eph, rank, rank[accts[i].name], m, m')
    ensures accts[i].name in m && accts[i].name in m' && m[accts[i].name] == m'[accts[i].name]
  {
    hide PlainFallbacks, WellNamed, Ranked, AgreeBelow, SeedBytes;
    SameKeys(env, accts, eph, m, m');
    var seeds := accts[i].pda.value.seeds;
    forall k | 0 <= k < |seeds| ensures SeedBytes(env, seeds[k], m) == SeedBytes(env, seeds[k], m') {
      SeedsAgree(env, accts, eph, rank, i, k, m, m');
    }
    AllSeedsAgree(env, seeds, m, m');
    ProgramsAgree(env, accts, eph, rank, i, m, m');
    assert Settled(env, accts[i], eph, m) && Settled(env, accts[i], eph, m');
    hide AllSeeds, Solution;
  }

  /** There is at most one solution, however the instruction lists its accounts. */
  lemma SolutionUnique(env: Env, accts: seq<Account>, other: seq<Account>, eph: Resolved, rank: map<string, nat>,
                       m: Resolved, m': Resolved)
    requires WellNamed(accts, eph) && PlainFallbacks(env, accts, eph) && Ranked(env, accts, eph, rank)
    requires SameAccounts(accts, other) && Solution(env, accts, eph, m) && Solution(env, other, eph, m')
    ensures m == m'
  {
    hide PlainFallbacks, WellNamed, Ranked, Settled;
    SolutionOfSame(env, accts, other, eph, m');
    SameKeys(env, accts, eph, m, m');
    forall k | k in m ensures m[k] == m'[k] {
      assert Named(accts, k);
      var j :| 0 <= j < |accts| && accts[j].name == k;
      SolutionsAgreeAt(env, accts, eph, rank, m, m', j);
    }
    hide Solution;
  }

  lemma TidyIsPlain(env: Env, accts: seq<Account>, eph: Resolved)
    requires NoShadowing(env, accts, eph)
    ensures PlainFallbacks(env, accts, eph)
  {
    hide SeedNames, ProgramNames, UsesPda, Fallback;
  }

  /** Resolving any two listings of the same accounts, when both succeed, gives every account the same key. */
  method ResolveTwice(env: Env, accts: seq<Account>, other: seq<Account>, eph: Resolved)
    returns (first: Result<seq<Meta>>, second: Result<seq<Meta>>)
    ensures first.Ok? && second.Ok? && SameAccounts(accts, other)
            && Tidy(env, accts, eph) && Tidy(env, other, eph) ==>
              && |first.value| == |accts| && |second.value| == |other|
              && forall i, j :: 0 <= i < |accts| && 0 <= j < |other| && accts[i] == other[j] ==>
                   first.value[i] == second.value[j]
  {
    hide Run, Tidy, SameAccounts, Feasible, WellNamed;
    var bumps, bumps';
    ghost var log, log';
    first, bumps, log := ResolveAccounts(env, accts, eph, map[]);
    second, bumps', log' := ResolveAccounts(env, other, eph, map[]);
    if first.Ok? && second.Ok? && SameAccounts(accts, other) && Tidy(env, accts, eph) && Tidy(env, other, eph) {
      TidyNames(env, accts, eph);
      TidyNames(env, other, eph);
      RunsAgree(env, accts, other, eph, log, bumps, log', bumps');
    }
  }

  lemma TidyNames(env: Env, accts: seq<Account>, eph: Resolved)
    requires Tidy(env, accts, eph)
    ensures WellNamed(accts, eph)
  {
  }

  lemma RunsAgree(env: Env, accts: seq<Account>, other: seq<Account>, eph: Resolved,
                  log: Log, bumps: map<string, Byte>, log': Log, bumps': map<string, Byte>)
    requires SameAccounts(accts, other) && Tidy(env, accts, eph) && Tidy(env, other, eph)
    requires Run(env, accts, eph, log, bumps) && Run(env, other, eph, log', bumps')
    ensures log.m == log'.m
  {
    TidyIsPlain(env, accts, eph);
    hide Run, WellNamed, NoShadowing, PlainFallbacks, Ranked, Solution, SameAccounts, NoneOvertaken;
    TidyRunIsSolution(env, accts, eph, log, bumps);
    TidyRunIsSolution(env, other, eph, log', bumps');
    RunRanked(env, accts, eph, log, bumps);
    SolutionUnique(env, accts, other, eph, log.time, log.m, log'.m);
  }

  // ----- a run that is no solution -----

  /** A PDA seeded by a well-known program, say "rent", listed before a signer account of that name. */
  function Shadowed(rent: string, name: string): seq<Account> {
    [Account(name, None, false, true, Some(Pda([AccountSeed(rent)], OwnProgram))),
     Account(rent, None, true, false, None)]
  }

  /** The resolver accepts it, and returns a PDA that its own final map does not bear out: the vault was
      derived from the program's key, and the account of that name turns out to be the signer. */
  method ShadowedProgram(env: Env, rent: string, name: string)
    returns (result: Result<seq<Meta>>, ghost log: Log)
    requires rent in env.known && name !in env.known && !IsMintName(rent) && !IsMintName(name)
    requires Snake(name) != Snake(rent) && FindsAddresses(env)
    requires env.find([env.known[rent]], env.program).Some? && env.find([env.signer], env.program).Some?
    requires env.find([env.known[rent]], env.program).value.key != env.find([env.signer], env.program).value.key
    ensures result.Ok? && |result.value| == 2
    ensures result.value[0].key == env.find([env.known[rent]], env.program).value.key
    ensures result.value[1].key == env.signer
    ensures !Solution(env, Shadowed(rent, name), map[], log.m)
  {
    var accts := Shadowed(rent, name);
    ghost var rank := map[name := 1, rent := 1];
    var bumps;
    ShadowedFeasible(env, rent, name, rank);
    result, bumps, log := ResolveAccounts(env, accts, map[], rank);
    ShadowedRun(env, rent, name, log, bumps);
  }

  lemma ShadowedFeasible(env: Env, rent: string, name: string, rank: map<string, nat>)
    requires rent in env.known && name !in env.known && !IsMintName(rent) && !IsMintName(name)
    requires Snake(name) != Snake(rent) && FindsAddresses(env) && rank == map[name := 1, rent := 1]
    ensures Feasible(env, Shadowed(rent, name), map[], rank) && WellNamed(Shadowed(rent, name), map[])
  {
    hide IsMintName, FindsAddresses, RankedBefore;
    var accts := Shadowed(rent, name);
    assert RankedAccount(env, accts, map[], rank, accts[0]);
  }

  lemma ShadowedRun(env: Env, rent: string, name: string, log: Log, bumps: map<string, Byte>)
    requires rent in env.known && name !in env.known && !IsMintName(rent) && !IsMintName(name)
    requires Snake(name) != Snake(rent)
    requires env.find([env.known[rent]], env.program).Some? && env.find([env.signer], env.program).Some?
    requires env.find([env.known[rent]], env.program).value.key != env.find([env.signer], env.program).value.key
    requires FindsAddresses(env) && Run(env, Shadowed(rent, name), map[], log, bumps)
    ensures name in log.m && rent in log.m && log.m[rent] == env.signer
    ensures log.m[name] == env.find([env.known[rent]], env.program).value.key
    ensures !Solution(env, Shadowed(rent, name), map[], log.m)
  {
    var accts := Shadowed(rent, name);
    var vault := accts[0];
    assert Recorded(env, accts[0], map[], log, bumps) && Recorded(env, accts[1], map[], log, bumps);
    assert accts[1].name == rent && accts[0].name == name;
    NothingElse(env, rent, name, log, bumps);
    VaultWithout(env, rent, vault, Before(log, log.time[name]));
    VaultWith(env, rent, vault, log.m);
    hide Derived, Greedy, Before, Recorded;
  }

  /** At the vault's time there is no account of the program's name. */
  lemma NothingElse(env: Env, rent: string, name: string, log: Log, bumps: map<string, Byte>)
    requires rent in env.known && name !in env.known && !IsMintName(rent) && !IsMintName(name)
    requires Snake(name) != Snake(rent)
    requires FindsAddresses(env) && Run(env, Shadowed(rent, name), map[], log, bumps)
    ensures name in log.time && !Matched(Before(log, log.time[name]), rent) && Matched(log.m, rent)
    ensures forall k :: k in log.m && Snake(k) == Snake(rent) ==> k == rent
  {
    hide Derived, Recorded, IsMintName;
    var accts := Shadowed(rent, name);
    assert accts[0].name == name && accts[1].name == rent;
    forall k | k in log.m ensures k == name || k == rent {
      assert Named(accts, k);
    }
    ReadyGoesFirst(env, accts, map[], log, bumps, 0, 1);
    assert RefersTo(log.m, rent, rent);
  }

  lemma VaultWithout(env: Env, rent: string, vault: Account, m: Resolved)
    requires rent in env.known && !IsMintName(rent) && !Matched(m, rent)
    requires vault.address == None && PlainKey(env, vault) == None
    requires vault.pda == Some(Pda([AccountSeed(rent)], OwnProgram))
    requires env.find([env.known[rent]], env.program).Some?
    ensures ValueOf(env, vault, m) == Ok(env.find([env.known[rent]], env.program).value)
  {
    OneSeed(env, AccountSeed(rent), m);
  }

  lemma VaultWith(env: Env, rent: string, vault: Account, m: Resolved)
    requires rent in m && !IsMintName(rent)
    requires vault.address == None && PlainKey(env, vault) == None
    requires vault.pda == Some(Pda([AccountSeed(rent)], OwnProgram))
    requires env.find([m[rent]], env.program).Some?
    ensures ValueOf(env, vault, m) == Ok(env.find([m[rent]], env.program).value)
  {
    OneSeed(env, AccountSeed(rent), m);
    assert RefersTo(m, rent, rent) && forall k :: RefersTo(m, rent, k) ==> k == rent;
  }

  lemma OneSeed(env: Env, seed: Seed, m: Resolved)
    ensures AllSeeds(env, [seed], m) ==
              match SeedBytes(env, seed, m) case Err(e) => Err(e) case Ok(b) => Ok([b])
  {
    hide SeedBytes;
    var seeds := [seed];
    assert seeds[..|seeds| - 1] == [];
    assert AllSeeds(env, [], m) == Ok([]);
    if SeedBytes(env, seed, m).Ok? {
      assert [] + [SeedBytes(env, seed, m).value] == [SeedBytes(env, seed, m).value];
    }
  }
}
