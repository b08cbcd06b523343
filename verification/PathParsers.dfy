/** The two readers of derivation paths: parsePath of the parties (internal/tss/derivation.go), with a
    31-bit checked parse, and parseBIP32Path of the installer (cmd/installer/mnemonic.go), with a
    wrapping 32-bit accumulator. */
module PathParsers {
  import opened Congruence
  import opened Options
  import opened Decimals

  const HARDENED: int := 0x8000_0000
  const UINT32: int := 0x1_0000_0000

  function TrimM(s: string): string {
    if |s| >= 2 && s[..2] == "m/" then s[2..] else s
  }

  /** strings.Split(s, "/"): never empty. */
  function Split(s: string): (parts: seq<string>)
    ensures |parts| >= 1
  {
    if s == "" then [""]
    else
      var rest := Split(s[1..]);
      if s[0] == '/' then [""] + rest else [[s[0]] + rest[0]] + rest[1..]
  }

  /** strconv.ParseUint(s, 10, 31). */
  function ParseUint31(s: string): Option<nat> {
    if s == "" || !AllDigits(s) || Decimal(s) >= HARDENED then None else Some(Decimal(s))
  }

  predicate HasMark(part: string) {
    part != "" && part[|part| - 1] in {'\'', 'h', 'H'}
  }

  function Digits(part: string): string {
    if HasMark(part) then part[..|part| - 1] else part
  }

  function Offset(part: string): nat {
    if HasMark(part) then HARDENED else 0
  }

  // ----- parsePath -----

  function PathParts(parts: seq<string>): Option<seq<nat>> {
    if parts == [] then Some([]) else
    var part := parts[0];
    if part == "" then PathParts(parts[1..]) else
    match ParseUint31(Digits(part))
    case None => None
    case Some(v) =>
      match PathParts(parts[1..])
      case None => None
      case Some(rest) => Some([v + Offset(part)] + rest)
  }

  function ParsePath(path: string): Option<seq<nat>> {
    var p := TrimM(path);
    if p == "" then None else PathParts(Split(p))
  }

  // ----- parseBIP32Path -----

  /** The accumulator val = val*10 + digit on uint32. */
  function Wrapped(s: string): (r: int)
    requires AllDigits(s)
    ensures 0 <= r < UINT32
  {
    if s == "" then 0 else (10 * Wrapped(s[..|s| - 1]) + DigitValue(s[|s| - 1])) % UINT32
  }

  function Bip32Parts(parts: seq<string>): Option<seq<nat>> {
    if parts == [] then Some([]) else
    var part := parts[0];
    if part == "" then Bip32Parts(parts[1..]) else
    if !AllDigits(Digits(part)) then None else
    match Bip32Parts(parts[1..])
    case None => None
    case Some(rest) => Some([(Wrapped(Digits(part)) + Offset(part)) % UINT32] + rest)
  }

  function ParseBIP32(path: string): Option<seq<nat>> {
    if path == "" || path == "m" then None else
    match Bip32Parts(Split(TrimM(path)))
    case None => None
    case Some(indices) => if indices == [] then None else Some(indices)
  }

  // ----- the loops -----

  lemma {:induction false} SplitAtSlash(s: string, k: nat)
    requires k < |s| && s[k] == '/' && '/' !in s[..k]
    ensures Split(s) == [s[..k]] + Split(s[k + 1..])
  {
    if k > 0 {
      SplitAtSlash(s[1..], k - 1);
      assert s[0] in s[..k];
      assert s[1..][..k - 1] == s[1..k] && s[1..][k..] == s[k + 1..];
      assert forall x :: x in s[1..k] ==> x in s[..k];
      assert s[..k] == [s[0]] + s[1..k];
    }
  }

  lemma {:induction false} SplitWithoutSlash(s: string)
    requires '/' !in s
    ensures Split(s) == [s]
  {
    if s != "" {
      SplitWithoutSlash(s[1..]);
      assert s[0] in s && s == [s[0]] + s[1..];
    }
  }

  /** The next part ends at a slash or at the end. */
  lemma SplitNext(s: string, start: nat, i: nat)
    requires start <= i <= |s| && '/' !in s[start..i] && (i < |s| ==> s[i] == '/')
    ensures Split(s[start..]) == [s[start..i]] + if i < |s| then Split(s[i + 1..]) else []
  {
    hide Split;
    var rest := s[start..];
    if i == |s| {
      assert s[start..i] == rest;
      SplitWithoutSlash(rest);
    } else {
      assert rest[..i - start] == s[start..i] && rest[i - start + 1..] == s[i + 1..];
      SplitAtSlash(rest, i - start);
    }
  }

  /** splitPath of the installer; strings.Split gives the same parts. */
  method SplitPath(s: string) returns (parts: seq<string>)
    ensures parts == Split(s)
  {
    hide Split;
    parts := [];
    var start := 0;
    assert s[0..] == s;
    for i := 0 to |s| + 1
      invariant start <= i && (i == |s| + 1 ==> parts == Split(s))
      invariant i <= |s| ==> start <= |s| && '/' !in s[start..i] && parts + Split(s[start..]) == Split(s)
    {
      if i == |s| || s[i] == '/' {
        SplitNext(s, start, i);
        parts := parts + [s[start..i]];
        start := i + 1;
      } else {
        assert s[start..i + 1] == s[start..i] + [s[i]];
      }
    }
  }

  lemma DecimalStep(s: string, i: nat)
    requires i < |s| && AllDigits(s[..i]) && IsDigit(s[i])
    ensures AllDigits(s[..i + 1])
    ensures Wrapped(s[..i + 1]) == (10 * Wrapped(s[..i]) + DigitValue(s[i])) % UINT32
  {
    assert s[..i + 1][..i] == s[..i];
  }

  /** The inner loop of parseBIP32Path. */
  method Accumulate(part: string) returns (ok: bool, val: nat)
    ensures ok <==> AllDigits(part)
    ensures ok ==> val == Wrapped(part)
  {
    val := 0;
    for i := 0 to |part|
      invariant AllDigits(part[..i]) && val == Wrapped(part[..i])
    {
      if !IsDigit(part[i]) {
        return false, val;
      }
      DecimalStep(part, i);
      val := (10 * val + DigitValue(part[i])) % UINT32;
    }
    assert part[..|part|] == part;
    ok := true;
  }

  lemma PrependStep(done: seq<nat>, v: nat, rest: Option<seq<nat>>)
    ensures Prepend(done, Prepend([v], rest)) == Prepend(done + [v], rest)
    ensures Prepend([], rest) == rest
  {
    if rest.Some? {
      assert done + ([v] + rest.value) == done + [v] + rest.value;
      assert [] + rest.value == rest.value;
    }
  }

  function Prepend(done: seq<nat>, rest: Option<seq<nat>>): Option<seq<nat>> {
    match rest case None => None case Some(r) => Some(done + r)
  }

  method ParsePathLoop(path: string) returns (r: Option<seq<nat>>)
    ensures r == ParsePath(path)
  {
    hide Digits, AllDigits, Decimal, Split, Offset;
    var p := TrimM(path);
    if p == "" {
      return None;
    }
    var parts := SplitPath(p);
    var indices: seq<nat> := [];
    PrependStep([], 0, PathParts(parts));
    assert parts[0..] == parts;
    for i := 0 to |parts|
      invariant PathParts(parts) == Prepend(indices, PathParts(parts[i..]))
    {
      var part := parts[i];
      assert parts[i..][0] == part && parts[i..][1..] == parts[i + 1..];
      if part != "" {
        var idx := ParseUint31(Digits(part));
        if idx == None {
          return None;
        }
        PrependStep(indices, idx.value + Offset(part), PathParts(parts[i + 1..]));
        indices := indices + [idx.value + Offset(part)];
      }
    }
    assert parts[|parts|..] == [] && indices + [] == indices;
    r := Some(indices);
  }

  method ParseBIP32PathLoop(path: string) returns (r: Option<seq<nat>>)
    ensures r == ParseBIP32(path)
  {
    hide Digits, AllDigits, Wrapped, Split, Offset;
    if path == "" || path == "m" {
      return None;
    }
    var parts := SplitPath(TrimM(path));
    var indices: seq<nat> := [];
    PrependStep([], 0, Bip32Parts(parts));
    assert parts[0..] == parts;
    for i := 0 to |parts|
      invariant Bip32Parts(parts) == Prepend(indices, Bip32Parts(parts[i..]))
    {
      var part := parts[i];
      assert parts[i..][0] == part && parts[i..][1..] == parts[i + 1..];
      if part != "" {
        var ok, val := Accumulate(Digits(part));
        if !ok {
          return None;
        }
        PrependStep(indices, (val + Offset(part)) % UINT32, Bip32Parts(parts[i + 1..]));
        indices := indices + [(val + Offset(part)) % UINT32];
      }
    }
    assert parts[|parts|..] == [] && indices + [] == indices;
    r := if indices == [] then None else Some(indices);
  }

  // ----- agreement -----

  /** The wrapping accumulator keeps the number modulo 2^32. */
  lemma {:induction false} WrappedIsModulo(s: string)
    requires AllDigits(s)
    ensures Wrapped(s) == Decimal(s) % UINT32
  {
    if s != "" {
      var t, d := s[..|s| - 1], DigitValue(s[|s| - 1]);
      WrappedIsModulo(t);
      var q := Decimal(t) / UINT32;
      FromQuotient(10 * (Decimal(t) % UINT32) + d, 10 * Decimal(t) + d, -10 * q, UINT32);
      CongIffMod(10 * (Decimal(t) % UINT32) + d, 10 * Decimal(t) + d, UINT32);
    }
  }

  /** Every component that is not empty has digits, and their value fits in 31 bits. */
  ghost predicate Checked31(parts: seq<string>) {
    forall i :: 0 <= i < |parts| && parts[i] != "" ==>
      Digits(parts[i]) != "" && AllDigits(Digits(parts[i])) && Decimal(Digits(parts[i])) < HARDENED
  }

  lemma Checked31Step(parts: seq<string>)
    requires parts != []
    ensures Checked31(parts) <==>
              Checked31(parts[1..]) && (parts[0] != "" ==> ParseUint31(Digits(parts[0])).Some?)
  {
    hide Digits, Decimal, AllDigits;
    assert parts == [parts[0]] + parts[1..];
  }

  lemma {:induction false} PartsAgreeIff(parts: seq<string>)
    ensures PathParts(parts).Some? <==> Checked31(parts)
    ensures PathParts(parts).Some? ==> Bip32Parts(parts) == PathParts(parts)
  {
    hide Digits, Decimal, Checked31, AllDigits, Wrapped;
    if parts == [] {
      assert Checked31([]) by { EmptyChecked(); }
    } else {
      PartsAgreeIff(parts[1..]);
      Checked31Step(parts);
      var d := Digits(parts[0]);
      if ParseUint31(d).Some? {
        WrappedIsModulo(d);
      }
    }
  }

  lemma EmptyChecked()
    ensures Checked31([])
  {
  }

  /** Whatever path the parties read as a nonempty list, the installer reads as the same list. */
  lemma InstallerReadsWhatPartiesRead(path: string)
    requires ParsePath(path).Some? && ParsePath(path).value != []
    ensures ParseBIP32(path) == ParsePath(path)
  {
    PartsAgreeIff(Split(TrimM(path)));
    NoIndices();
  }

  /** The paths "m" and "" name no index for either reader. */
  lemma NoIndices()
    ensures ParsePath("m") == None && Bip32Parts(Split("")) == Some([])
  {
    SplitWithoutSlash("m");
    assert PathParts(["m"]) == None;
    assert Bip32Parts([""]) == Bip32Parts([]);
  }

  /** The installer accepts more: a path it reads is read alike by the parties exactly when every
      component has digits whose value fits in 31 bits. */
  lemma PartiesReadWhatInstallerReadsIff(path: string)
    requires ParseBIP32(path).Some?
    ensures ParsePath(path) == ParseBIP32(path) <==> Checked31(Split(TrimM(path)))
  {
    PartsAgreeIff(Split(TrimM(path)));
    NoIndices();
  }

  // ----- rendering -----

  /** The three ways to mark a hardened component. */
  type Mark = c: char | c == '\'' || c == 'h' || c == 'H' witness 'h'

  function RenderIndex(index: nat, mark: Mark): string {
    if index >= HARDENED then Numeral(index - HARDENED) + [mark] else Numeral(index)
  }

  /** m/44'/60'/0'/0/0 for a list of indices. */
  function RenderParts(indices: seq<nat>, mark: Mark): seq<string> {
    seq(|indices|, i requires 0 <= i < |indices| => RenderIndex(indices[i], mark))
  }

  function Join(parts: seq<string>): string {
    if parts == [] then "" else if |parts| == 1 then parts[0] else parts[0] + "/" + Join(parts[1..])
  }

  function Render(indices: seq<nat>, mark: Mark): string {
    "m/" + Join(RenderParts(indices, mark))
  }

  lemma {:induction false} SplitOfJoin(parts: seq<string>)
    requires parts != [] && forall i :: 0 <= i < |parts| ==> '/' !in parts[i]
    ensures Split(Join(parts)) == parts
  {
    if |parts| == 1 {
      SplitWithoutSlash(parts[0]);
    } else {
      SplitOfJoin(parts[1..]);
      var s, k := Join(parts), |parts[0]|;
      assert s[..k] == parts[0] && s[k + 1..] == Join(parts[1..]);
      SplitAtSlash(s, k);
    }
  }

  lemma NumeralPlain(n: nat)
    ensures var s := Numeral(n); !HasMark(s) && '/' !in s && TrimM(s) == s && s != "m"
  {
    var s := Numeral(n);
    assert IsDigit(s[0]) && IsDigit(s[|s| - 1]);
    assert |s| >= 2 ==> s[..2][0] == s[0];
  }

  lemma MarkedNumeral(n: nat, mark: Mark)
    ensures var part := Numeral(n) + [mark]; HasMark(part) && Digits(part) == Numeral(n) && '/' !in part
  {
    var part := Numeral(n) + [mark];
    NumeralPlain(n);
    assert part[..|part| - 1] == Numeral(n);
  }

  lemma RenderedIndex(index: nat, mark: Mark)
    requires index < UINT32
    ensures var part := RenderIndex(index, mark);
            && part != "" && '/' !in part
            && ParseUint31(Digits(part)).Some?
            && ParseUint31(Digits(part)).value + Offset(part) == index
  {
    hide Numeral, Decimal, HasMark, AllDigits;
    var v := index % HARDENED;
    DecimalOfNumeral(v);
    NumeralPlain(v);
    MarkedNumeral(v, mark);
  }

  lemma {:induction false} RenderedParts(indices: seq<nat>, mark: Mark)
    requires forall i :: 0 <= i < |indices| ==> indices[i] < UINT32
    ensures PathParts(RenderParts(indices, mark)) == Some(indices)
  {
    hide RenderIndex, ParseUint31, Digits, Offset;
    if indices != [] {
      RenderedIndex(indices[0], mark);
      RenderedParts(indices[1..], mark);
      assert RenderParts(indices, mark)[1..] == RenderParts(indices[1..], mark);
      assert indices == [indices[0]] + indices[1..];
    }
  }

  /** Both readers read the canonical rendering of any list of 32-bit indices back to that list, whichever the
      hardening mark. */
  lemma RenderedPathParses(indices: seq<nat>, mark: Mark)
    requires indices != [] && forall i :: 0 <= i < |indices| ==> indices[i] < UINT32
    ensures ParsePath(Render(indices, mark)) == Some(indices) && ParseBIP32(Render(indices, mark)) == Some(indices)
  {
    var parts := RenderParts(indices, mark);
    forall i | 0 <= i < |parts|
      ensures '/' !in parts[i]
    {
      RenderedIndex(indices[i], mark);
    }
    SplitOfJoin(parts);
    RenderedParts(indices, mark);
    var s := Render(indices, mark);
    assert s[..2] == "m/" && s[2..] == Join(parts);
    RenderedIndex(indices[0], mark);
    assert Join(parts) != "";
    InstallerReadsWhatPartiesRead(s);
  }

  /** The difference between the readers is real: a bare hardening mark, and a component of 2^32. */
  lemma InstallerAcceptsMore()
    ensures ParsePath("'") == None && ParseBIP32("'") == Some([HARDENED])
    ensures ParsePath(Numeral(UINT32)) == None && ParseBIP32(Numeral(UINT32)) == Some([0])
  {
    BareMark();
    WholeWord(Numeral(UINT32)) by {
      NumeralPlain(UINT32);
      DecimalOfNumeral(UINT32);
    }
  }

  /** A component whose value is exactly 2^32. */
  lemma WholeWord(s: string)
    requires s != "" && AllDigits(s) && Decimal(s) == UINT32 && !HasMark(s) && '/' !in s && TrimM(s) == s && s != "m"
    ensures ParsePath(s) == None && ParseBIP32(s) == Some([0])
  {
    hide Numeral, Decimal, Wrapped, HasMark, AllDigits, Split;
    SplitWithoutSlash(s);
    OneComponent(s);
    WrappedIsModulo(s);
  }

  lemma BareMark()
    ensures ParsePath("'") == None && ParseBIP32("'") == Some([HARDENED])
  {
    SplitWithoutSlash("'");
    OneComponent("'");
  }

  lemma OneComponent(part: string)
    requires part != "" && AllDigits(Digits(part))
    ensures PathParts([part]) == if ParseUint31(Digits(part)) == None then None
                                 else Some([ParseUint31(Digits(part)).value + Offset(part)])
    ensures Bip32Parts([part]) == Some([(Wrapped(Digits(part)) + Offset(part)) % UINT32])
  {
    assert [part][1..] == [];
    assert PathParts([]) == Some([]) && Bip32Parts([]) == Some([]);
    hide Digits, Wrapped, Decimal;
    var w := (Wrapped(Digits(part)) + Offset(part)) % UINT32;
    assert [w] + [] == [w];
    if ParseUint31(Digits(part)).Some? {
      var v := ParseUint31(Digits(part)).value + Offset(part);
      assert [v] + [] == [v];
    }
  }
}
