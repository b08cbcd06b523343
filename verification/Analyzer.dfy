/** Party B's analyzer (internal/partyb/analyzer/analyzer.go): it fills an analysis step by step and
    decides on the decoded fields where there are any, and on the claimed ones where there are none. */
module Analyzer {
  import opened Bytes
  import opened Options
  import opened Decimals

  datatype Action = Approve | Reject | Escalate

  datatype Request = Request(
    to: seq<string>,
    value: string,
    path: string,
    unsignedTx: string,      // base64
    signableBytes: string)   // base64

  datatype Decoded = Decoded(to: seq<string>, value: string)

  /** The codec of one chain. */
  datatype Adapter = Adapter(
    decode: seq<Byte> -> Option<Decoded>,
    extract: seq<Byte> -> Option<seq<Byte>>)

  datatype Llm = Disabled | Unavailable | Says(action: Action)

  /** What the analyzer consults: base64, the adapter registry, the whitelist table with the
      addresses whose lookup fails, and the optional language model. */
  datatype Env = Env(
    base64: string -> Option<seq<Byte>>,
    adapterFor: string -> Option<Adapter>,
    whitelist: set<string>,
    failing: set<string>,
    llm: Llm)

  datatype Analysis = Analysis(
    action: Action,
    decoded: Option<Decoded>,
    signableOk: bool,
    whitelisted: bool)

  const ZERO_ADDRESS: string := "0x0000000000000000000000000000000000000000"
  const HIGH_VALUE: int := 100_000_000_000_000_000_000

  function Lower(s: string): (r: string)
    ensures |r| == |s|
  {
    seq(|s|, i requires 0 <= i < |s| =>
      if 'A' <= s[i] <= 'Z' then (s[i] as int + 32) as char else s[i])
  }

  /** The lookup of one address succeeds and finds it. */
  predicate Listed(env: Env, addr: string) {
    addr !in env.failing && Lower(addr) in env.whitelist
  }

  predicate AnyListed(env: Env, to: seq<string>) {
    exists i :: 0 <= i < |to| && Listed(env, to[i])
  }

  function DecodedTx(env: Env, req: Request): Option<Decoded> {
    match (env.base64(req.unsignedTx), env.adapterFor(req.path))
    case (Some(raw), Some(adapter)) => adapter.decode(raw)
    case _ => None
  }

  /** The recomputed and the claimed signable bytes both exist and differ. */
  predicate Tampered(env: Env, req: Request) {
    match (env.base64(req.unsignedTx), env.adapterFor(req.path))
    case (Some(raw), Some(adapter)) =>
      (match (adapter.extract(raw), env.base64(req.signableBytes))
       case (Some(recomputed), Some(claimed)) => recomputed != claimed
       case _ => false)
    case _ => false
  }

  /** Recipients and value after decoding; claimed fields only fill gaps. */
  function EffectiveTo(req: Request, decoded: Option<Decoded>): seq<string> {
    if decoded.Some? && decoded.value.to != [] then decoded.value.to else req.to
  }

  function EffectiveValue(req: Request, decoded: Option<Decoded>): string {
    if decoded.Some? && decoded.value.value != "" then decoded.value.value else req.value
  }

  /** What the rule-based checks object to, if anything. */
  function RuleAction(to: seq<string>, value: string): Option<Action> {
    if to == [] then Some(Reject)
    else if exists i :: 0 <= i < |to| && Lower(to[i]) == ZERO_ADDRESS then Some(Reject)
    else if value == "" then None
    else match ParseInt(value)
         case None => Some(Reject)
         case Some(v) => if v > HIGH_VALUE then Some(Escalate) else None
  }

  // ----- the methods -----

  method BytesEqual(a: seq<Byte>, b: seq<Byte>) returns (equal: bool)
    ensures equal <==> a == b
  {
    if |a| != |b| {
      return false;
    }
    for i := 0 to |a|
      invariant a[..i] == b[..i]
    {
      if a[i] != b[i] {
        return false;
      }
    }
    assert a == a[..|a|] && b == b[..|b|];
    return true;
  }

  method DeterministicChecks(to: seq<string>, value: string) returns (verdict: Option<Action>)
    ensures verdict == RuleAction(to, value)
    ensures verdict == Some(Reject) <==>
              || to == [] || (exists i :: 0 <= i < |to| && Lower(to[i]) == ZERO_ADDRESS)
              || (value != "" && ParseInt(value) == None)
    ensures verdict == None ==> value == "" || ParseInt(value).value <= HIGH_VALUE
    ensures verdict == Some(Escalate) ==> value != "" && ParseInt(value).value > HIGH_VALUE
  {
    if |to| == 0 {
      return Some(Reject);
    }
    for i := 0 to |to|
      invariant forall j :: 0 <= j < i ==> Lower(to[j]) != ZERO_ADDRESS
    {
      if Lower(to[i]) == ZERO_ADDRESS {
        return Some(Reject);
      }
    }
    if value != "" {
      var v := ParseInt(value);
      if v == None {
        return Some(Reject);
      }
      if v.value > HIGH_VALUE {
        return Some(Escalate);
      }
    }
    return None;
  }

  /** The whitelist loop: stops at the first hit, skips failed lookups. */
  method CheckWhitelist(env: Env, to: seq<string>) returns (hit: bool)
    ensures hit <==> AnyListed(env, to)
    ensures hit <==> exists i :: 0 <= i < |to| && to[i] !in env.failing && Lower(to[i]) in env.whitelist
  {
    for i := 0 to |to|
      invariant forall j :: 0 <= j < i ==> !Listed(env, to[j])
    {
      if to[i] !in env.failing && Lower(to[i]) in env.whitelist {
        assert Listed(env, to[i]);
        return true;
      }
    }
    return false;
  }

  /** Analyze. */
  method Analyze(env: Env, req: Request) returns (result: Analysis)
    ensures result == AnalysisOf(env, req)
  {
    result := Analysis(Escalate, None, true, false);
    var unsignedTx := env.base64(req.unsignedTx);
    if unsignedTx.Some? {
      var adapter := env.adapterFor(req.path);
      if adapter.Some? {
        result := result.(decoded := adapter.value.decode(unsignedTx.value));
        var recomputed := adapter.value.extract(unsignedTx.value);
        if recomputed.Some? {
          var claimed := env.base64(req.signableBytes);
          if claimed.Some? {
            var equal := BytesEqual(recomputed.value, claimed.value);
            if !equal {
              result := result.(signableOk := false);
            }
          }
        }
      }
    }
    if !result.signableOk {
      return result.(action := Reject);
    }
    var effectiveTo := EffectiveTo(req, result.decoded);
    var effectiveValue := EffectiveValue(req, result.decoded);
    var hit := CheckWhitelist(env, effectiveTo);
    result := result.(whitelisted := hit);
    var verdict := DeterministicChecks(effectiveTo, effectiveValue);
    if verdict.Some? {
      return result.(action := verdict.value);
    }
    match env.llm {
      case Says(action) =>
        result := result.(action := action);
      case Disabled =>
        result := result.(action := if result.whitelisted then Approve else Escalate);
      case Unavailable =>
        result := result.(action := if result.whitelisted then Approve else Escalate);
    }
  }

  /** The analysis as one value. */
  function AnalysisOf(env: Env, req: Request): Analysis {
    var decoded := DecodedTx(env, req);
    if Tampered(env, req) then Analysis(Reject, decoded, false, false) else
    var to, value := EffectiveTo(req, decoded), EffectiveValue(req, decoded);
    var hit := AnyListed(env, to);
    var action := match RuleAction(to, value)
                  case Some(a) => a
                  case None =>
                    (match env.llm
                     case Says(a) => a
                     case _ => if hit then Approve else Escalate);
    Analysis(action, decoded, true, hit)
  }

  // ----- what a caller may conclude -----

  /** An analysis that is whitelisted and not a rejection found no differing bytes, and has a listed
      recipient among the effective ones, none of them the zero address. */
  lemma WhitelistedMeans(env: Env, req: Request)
    requires AnalysisOf(env, req).whitelisted && AnalysisOf(env, req).action != Reject
    ensures !Tampered(env, req)
    ensures var to := EffectiveTo(req, DecodedTx(env, req));
            && AnyListed(env, to)
            && forall i :: 0 <= i < |to| ==> Lower(to[i]) != ZERO_ADDRESS
  {
  }

  /** The bytes themselves name a recipient. */
  predicate BytesName(env: Env, req: Request) {
    DecodedTx(env, req).Some? && DecodedTx(env, req).value.to != []
  }

  /** The bytes themselves name a listed recipient. */
  predicate BytesNameListed(env: Env, req: Request) {
    DecodedTx(env, req).Some? && AnyListed(env, DecodedTx(env, req).value.to)
  }

  /** A whitelisted analysis that does not reject rests on a listed recipient in the bytes if and only if the
      bytes name any recipient at all; otherwise it rests on a claimed one. */
  lemma RestsOnBytesIff(env: Env, req: Request)
    requires AnalysisOf(env, req).whitelisted && AnalysisOf(env, req).action != Reject
    ensures BytesNameListed(env, req) <==> BytesName(env, req)
    ensures !BytesName(env, req) ==> AnyListed(env, req.to)
  {
    WhitelistedMeans(env, req);
  }

  /** Both sides of the comparison are there: the analyzer could recompute the signable bytes, and the
      claimed ones can be read. */
  predicate Compared(env: Env, req: Request) {
    match (env.base64(req.unsignedTx), env.adapterFor(req.path))
    case (Some(raw), Some(adapter)) => adapter.extract(raw).Some? && env.base64(req.signableBytes).Some?
    case _ => false
  }

  /** What the analyzer reads off the request, and which bytes it takes for tampered with: those it can
      recompute and read, and that differ. */
  lemma WhatIsRead(env: Env, req: Request)
    ensures var (raw, adapter) := (env.base64(req.unsignedTx), env.adapterFor(req.path));
            && (raw == None || adapter == None ==> DecodedTx(env, req) == None && !Tampered(env, req))
            && (raw.Some? && adapter.Some? ==>
                  var (recomputed, claimed) := (adapter.value.extract(raw.value), env.base64(req.signableBytes));
                  && DecodedTx(env, req) == adapter.value.decode(raw.value)
                  && (Tampered(env, req) <==> recomputed.Some? && claimed.Some? && recomputed != claimed))
  {
  }

  /** When the analyzer rejects, when it approves, and when it finds a listed recipient; everything else it
      escalates. A language model is heard exactly where no rule objects. */
  lemma VerdictIff(env: Env, req: Request)
    ensures var decoded := DecodedTx(env, req);
            var to := if decoded.Some? && decoded.value.to != [] then decoded.value.to else req.to;
            var value := if decoded.Some? && decoded.value.value != "" then decoded.value.value else req.value;
            var noRecipient := to == [] || exists i :: 0 <= i < |to| && Lower(to[i]) == ZERO_ADDRESS;
            var unreadable := value != "" && ParseInt(value) == None;
            var high := value != "" && ParseInt(value).Some? && ParseInt(value).value > 100_000_000_000_000_000_000;
            var listed := exists i :: 0 <= i < |to| && to[i] !in env.failing && Lower(to[i]) in env.whitelist;
            var r := AnalysisOf(env, req);
            && r.decoded == decoded && r.signableOk == !Tampered(env, req)
            && r.whitelisted == (!Tampered(env, req) && listed)
            && (r.action == Reject <==>
                  Tampered(env, req) || noRecipient || unreadable || (!high && env.llm == Says(Reject)))
            && (r.action == Approve <==>
                  && !Tampered(env, req) && !noRecipient && !unreadable && !high
                  && (env.llm == Says(Approve) || (!env.llm.Says? && listed)))
  {
    hide DecodedTx, Tampered, Lower;
    var to := EffectiveTo(req, DecodedTx(env, req));
    assert AnyListed(env, to) <==> exists i :: 0 <= i < |to| && Listed(env, to[i]);
  }

  /** Claims count only where the bytes are silent: with a value in the bytes the analysis does not depend on
      the claimed one, and with a recipient in the bytes not on the claimed ones. */
  lemma ClaimsFillGapsOnly(env: Env, req: Request, value: string, to: seq<string>)
    ensures DecodedTx(env, req).Some? && DecodedTx(env, req).value.value != "" ==>
              AnalysisOf(env, req.(value := value)) == AnalysisOf(env, req)
    ensures BytesName(env, req) ==> AnalysisOf(env, req.(to := to)) == AnalysisOf(env, req)
  {
  }

  /** The same letter, perhaps in another case. */
  predicate SameLetter(a: char, b: char) {
    a == b || ('A' <= a <= 'Z' && b as int == a as int + 32) || ('A' <= b <= 'Z' && a as int == b as int + 32)
  }

  /** Addresses that differ only in case are one and the same to the analyzer. */
  lemma CaseDoesNotMatter(env: Env, a: string, b: string)
    requires |a| == |b| && forall i :: 0 <= i < |a| ==> SameLetter(a[i], b[i])
    ensures Lower(a) == Lower(b)
    ensures a !in env.failing && b !in env.failing ==> (Listed(env, a) <==> Listed(env, b))
  {
  }

  /** A language model can turn an approval into anything, but no rule objection into an approval, and no
      rejection into anything else. */
  lemma RulesBindTheModel(env: Env, req: Request)
    requires AnalysisOf(env, req).action != Reject
    ensures var decoded := DecodedTx(env, req);
            var to, value := EffectiveTo(req, decoded), EffectiveValue(req, decoded);
            && !Tampered(env, req) && RuleAction(to, value) != Some(Reject)
            && (AnalysisOf(env, req).action == Approve ==>
                  RuleAction(to, value) == None && (env.llm.Says? || AnyListed(env, to)))
  {
  }

  /** A high value escalates but leaves the whitelist flag standing, so the caller's auto mode still sees it. */
  lemma HighValueKeepsFlag(env: Env, req: Request)
    requires !Tampered(env, req)
    requires var decoded := DecodedTx(env, req);
             RuleAction(EffectiveTo(req, decoded), EffectiveValue(req, decoded)) == Some(Escalate)
    ensures AnalysisOf(env, req).action == Escalate
    ensures AnalysisOf(env, req).whitelisted <==> AnyListed(env, EffectiveTo(req, DecodedTx(env, req)))
  {
  }
}
