/** toSnakeCase of internal/vm/solana/anchor.go, on ASCII names. */
module SnakeCase {
  predicate IsUpper(c: char) {
    'A' <= c <= 'Z'
  }

  function ToLower(c: char): char
    requires IsUpper(c)
  {
    (c as int + 32) as char
  }

  /** What one character at position i becomes. */
  function Piece(c: char, i: nat): string {
    if IsUpper(c) then (if i > 0 then "_" else "") + [ToLower(c)] else [c]
  }

  function Snake(s: string): string {
    if s == "" then "" else Snake(s[..|s| - 1]) + Piece(s[|s| - 1], |s| - 1)
  }

  method ToSnakeCase(s: string) returns (result: string)
    ensures result == Snake(s)
  {
    result := "";
    for i := 0 to |s|
      invariant result == Snake(s[..i])
    {
      assert s[..i + 1][..i] == s[..i];
      if IsUpper(s[i]) {
        if i > 0 {
          result := result + "_";
        }
        result := result + [ToLower(s[i])];
      } else {
        result := result + [s[i]];
      }
    }
    assert s[..|s|] == s;
  }

  predicate NoUpper(s: string) {
    forall i :: 0 <= i < |s| ==> !IsUpper(s[i])
  }

  /** A name without capitals is its own snake case, so a second conversion changes nothing. */
  lemma {:induction false} SnakeOfLower(s: string)
    requires NoUpper(s)
    ensures Snake(s) == s
  {
    if s != "" {
      SnakeOfLower(s[..|s| - 1]);
      assert s == s[..|s| - 1] + [s[|s| - 1]];
    }
  }

  lemma {:induction false} SnakeIsLower(s: string)
    ensures NoUpper(Snake(s)) && Snake(Snake(s)) == Snake(s)
  {
    if s != "" {
      SnakeIsLower(s[..|s| - 1]);
      var p := Piece(s[|s| - 1], |s| - 1);
      assert NoUpper(p);
    }
    SnakeOfLower(Snake(s));
  }

  // ----- what it is for -----

  /** A word of an identifier: a small letter, then anything but capitals. */
  predicate IsWord(w: string) {
    w != "" && 'a' <= w[0] <= 'z' && NoUpper(w)
  }

  function Capitalized(w: string): string
    requires IsWord(w)
  {
    [(w[0] as int - 32) as char] + w[1..]
  }

  /** userTokenAccount */
  function Camel(words: seq<string>): string
    requires words != [] && forall i :: 0 <= i < |words| ==> IsWord(words[i])
  {
    var n := |words| - 1;
    if n == 0 then words[0] else Camel(words[..n]) + Capitalized(words[n])
  }

  /** user_token_account */
  function Underscored(words: seq<string>): string
    requires words != []
  {
    var n := |words| - 1;
    if n == 0 then words[0] else Underscored(words[..n]) + "_" + words[n]
  }

  lemma SnakeStep(s: string, c: char)
    ensures Snake(s + [c]) == Snake(s) + Piece(c, |s|)
  {
    assert (s + [c])[..|s|] == s;
  }

  lemma {:induction false} SnakeAppend(s: string, t: string)
    requires NoUpper(t)
    ensures Snake(s + t) == Snake(s) + t
  {
    hide Snake;
    if t == "" {
      assert s + t == s && Snake(s) + t == Snake(s);
    } else {
      var n := |t| - 1;
      SnakeAppend(s, t[..n]);
      SnakeStep(s + t[..n], t[n]);
      assert s + t == s + t[..n] + [t[n]];
      assert Snake(s) + t == Snake(s) + t[..n] + [t[n]];
    }
  }

  /** A capital starts a new word. */
  lemma SnakeAppendWord(s: string, w: string)
    requires s != "" && IsWord(w)
    ensures Snake(s + Capitalized(w)) == Snake(s) + "_" + w
  {
    hide Snake;
    var c := Capitalized(w)[0];
    SnakeStep(s, c);
    SnakeAppend(s + [c], w[1..]);
    assert s + Capitalized(w) == s + [c] + w[1..];
    assert Piece(c, |s|) == "_" + [w[0]];
    assert Snake(s) + "_" + w == Snake(s) + ("_" + [w[0]]) + w[1..];
  }

  /** The snake case of a name in camel case has the same words, joined by underscores, and so has theirs. */
  lemma {:induction false} SnakeOfCamel(words: seq<string>)
    requires words != [] && forall i :: 0 <= i < |words| ==> IsWord(words[i])
    ensures Snake(Camel(words)) == Underscored(words)
    ensures Snake(Underscored(words)) == Underscored(words)
    decreases |words|
  {
    hide Snake, NoUpper;
    var n := |words| - 1;
    if n == 0 {
      SnakeOfLower(words[0]);
    } else {
      SnakeOfCamel(words[..n]);
      CamelNonempty(words[..n]);
      SnakeAppendWord(Camel(words[..n]), words[n]);
    }
    SnakeIsLower(Camel(words));
  }

  lemma {:induction false} CamelNonempty(words: seq<string>)
    requires words != [] && forall i :: 0 <= i < |words| ==> IsWord(words[i])
    ensures Camel(words) != ""
    decreases |words|
  {
    if |words| > 1 {
      CamelNonempty(words[..|words| - 1]);
    }
  }
}
