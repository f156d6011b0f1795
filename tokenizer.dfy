/**
 * The tokenizer of the backend parser: every maximal run of letters and
 * digits is one token, every other character that is not white space is
 * a token of its own, and white space only separates.
 */
module Tokenizer {
  import opened Text

  predicate AllAlnum(t: string) { forall i :: 0 <= i < |t| ==> IsAlnum(t[i]) }

  /** Length of the longest prefix of `s` made of letters and digits. */
  function AlnumRun(s: string): (n: nat)
    ensures n <= |s| && AllAlnum(s[..n])
    ensures n < |s| ==> !IsAlnum(s[n])
  {
    if s == [] || !IsAlnum(s[0]) then 0
    else
      var n := 1 + AlnumRun(s[1..]);
      assert s[..n] == [s[0]] + s[1..][..n - 1];
      n
  }

  /** The tokens of `s`, read by longest match from the left. */
  function Tokens(s: string): seq<string>
    decreases |s|
  {
    if s == [] then []
    else if IsAlnum(s[0]) then
      var n := AlnumRun(s);
      [s[..n]] + Tokens(s[n..])
    else if IsPySpace(s[0]) then Tokens(s[1..])
    else [[s[0]]] + Tokens(s[1..])
  }

  /** The tokens of `current + s` where `current` is an alphanumeric run
      already read: the state of the tokenizer below, read one character
      at a time. */
  function PendingTokens(current: string, s: string): seq<string>
    decreases |s|
  {
    var flushed := if |current| == 0 then [] else [current];
    if s == [] then flushed
    else if IsAlnum(s[0]) then PendingTokens(current + [s[0]], s[1..])
    else flushed + (if IsPySpace(s[0]) then [] else [[s[0]]]) + PendingTokens("", s[1..])
  }

  /** Reading one character at a time gives the longest-match tokens. */
  lemma {:induction false} PendingTokensCorrect(current: string, s: string)
    requires AllAlnum(current)
    ensures PendingTokens(current, s) == Tokens(current + s)
    decreases |s|
  {
    if s == [] {
      LastRun(current);
      assert current + s == current;
    } else if IsAlnum(s[0]) {
      PendingTokensCorrect(current + [s[0]], s[1..]);
      assert current + s == (current + [s[0]]) + s[1..];
    } else {
      PendingTokensCorrect("", s[1..]);
      assert "" + s[1..] == s[1..];
      assert s == [s[0]] + s[1..];
      EndOfRun(current, s[0], s[1..]);
    }
  }

  /** The character-by-character tokenizer: letters and digits accumulate
      in the current token, any other character ends it, and a character
      that is not white space is then a token of its own. */
  method Tokenize(input: string) returns (tokens: seq<string>)
    ensures tokens == Tokens(input)
  {
    tokens := [];
    var current := "";
    var i := 0;
    ghost var rest := input;
    ghost var goal := PendingTokens(current, rest);
    while i < |input|
      invariant 0 <= i <= |input| && rest == input[i..]
      invariant goal == tokens + PendingTokens(current, rest)
    {
      var c := input[i];
      ghost var next := rest[1..];
      assert rest == [c] + next && next == input[i + 1..];
      if IsAlnum(c) {
        PendingAlnum(current, c, next);
        current := current + [c];
      } else {
        ghost var flushed := if |current| == 0 then [] else [current];
        ghost var other := if IsPySpace(c) then [] else [[c]];
        ghost var before := tokens;
        PendingOther(current, c, next);
        if |current| > 0 {
          tokens := tokens + [current];
          current := "";
        }
        if !IsPySpace(c) {
          tokens := tokens + [[c]];
        }
        assert current == "" && tokens == before + flushed + other;
        Regroup(before, flushed, other, PendingTokens("", next));
      }
      rest := next;
      i := i + 1;
    }
    assert rest == [];
    if |current| > 0 {
      tokens := tokens + [current];
    }
    PendingTokensCorrect("", input);
    assert "" + input == input;
  }

  lemma Regroup(a: seq<string>, b: seq<string>, c: seq<string>, d: seq<string>)
    ensures a + (b + c + d) == (a + b + c) + d
  {
  }

  /** A letter or digit extends the current run. */
  lemma PendingAlnum(current: string, c: char, rest: string)
    requires IsAlnum(c)
    ensures PendingTokens(current, [c] + rest) == PendingTokens(current + [c], rest)
  {
    assert ([c] + rest)[0] == c && ([c] + rest)[1..] == rest;
  }

  /** Any other character flushes the current run and is a token of its
      own unless it is white space. */
  lemma PendingOther(current: string, c: char, rest: string)
    requires !IsAlnum(c)
    ensures PendingTokens(current, [c] + rest) ==
      (if |current| == 0 then [] else [current]) + (if IsPySpace(c) then [] else [[c]]) + PendingTokens("", rest)
  {
    assert ([c] + rest)[0] == c && ([c] + rest)[1..] == rest;
  }

  /** The run still open at the end of the input is the last token. */
  lemma LastRun(current: string)
    requires AllAlnum(current)
    ensures Tokens(current) == if current == "" then [] else [current]
  {
    if current != "" {
      TokensOfRun(current, []);
      assert current + [] == current;
    }
  }

  /** A character that is not alphanumeric is skipped when it is white
      space and is a token of its own otherwise. */
  lemma TokensOfOther(c: char, rest: string)
    requires !IsAlnum(c)
    ensures Tokens([c] + rest) == (if IsPySpace(c) then [] else [[c]]) + Tokens(rest)
  {
    assert ([c] + rest)[1..] == rest;
  }

  /** A character that is not alphanumeric ends the current run, which is
      then a token, and is itself a token unless it is white space. */
  lemma EndOfRun(current: string, c: char, rest: string)
    requires AllAlnum(current) && !IsAlnum(c)
    ensures Tokens(current + ([c] + rest)) ==
      (if current == "" then [] else [current]) + (if IsPySpace(c) then [] else [[c]]) + Tokens(rest)
  {
    if current == "" {
      assert current + ([c] + rest) == [c] + rest;
      TokensOfOther(c, rest);
    } else {
      RunThenOther(current, c, rest);
    }
  }

  lemma RunThenOther(current: string, c: char, rest: string)
    requires current != "" && AllAlnum(current) && !IsAlnum(c)
    ensures Tokens(current + ([c] + rest)) ==
      [current] + (if IsPySpace(c) then [] else [[c]]) + Tokens(rest)
  {
    var tail := [c] + rest;
    assert tail[0] == c;
    TokensOfRun(current, tail);
    TokensOfOther(c, rest);
  }

  /** A non-empty alphanumeric run followed by nothing or by a character
      that is not alphanumeric is one token. */
  lemma TokensOfRun(r: string, b: string)
    requires r != [] && AllAlnum(r)
    requires b == [] || !IsAlnum(b[0])
    ensures Tokens(r + b) == [r] + Tokens(b)
  {
    var s := r + b;
    AlnumRunOfRun(r, b);
    assert s[..|r|] == r && s[|r|..] == b;
  }

  lemma {:induction false} AlnumRunOfRun(r: string, b: string)
    requires AllAlnum(r)
    requires b == [] || !IsAlnum(b[0])
    ensures AlnumRun(r + b) == |r|
  {
    if r != [] {
      assert (r + b)[1..] == r[1..] + b;
      AlnumRunOfRun(r[1..], b);
    } else {
      assert r + b == b;
    }
  }

  predicate Boundary(a: string, x: string) {
    a == [] || x == [] || !IsAlnum(a[|a| - 1]) || !IsAlnum(x[0])
  }

  /** Tokenizing splits at any point that is not inside an alphanumeric
      run. */
  lemma {:induction false} TokensAppend(a: string, x: string)
    requires Boundary(a, x)
    ensures Tokens(a + x) == Tokens(a) + Tokens(x)
    decreases |a|
  {
    if a == [] {
      assert a + x == x;
    } else if x == [] {
      assert a + x == a;
    } else {
      var s := a + x;
      if IsAlnum(a[0]) {
        var n := AlnumRun(a);
        if n == |a| {
          assert a[..n] == a;
          assert !IsAlnum(x[0]);
          AlnumRunOfRun(a, x);
          assert s[..n] == a && s[n..] == x;
          assert a[n..] == [];
        } else {
          AlnumRunOfRun(a[..n], a[n..] + x);
          assert s == a[..n] + (a[n..] + x);
          AlnumRunOfRun(a[..n], a[n..]);
          assert a == a[..n] + a[n..];
          assert s[..n] == a[..n] && s[n..] == a[n..] + x;
          TokensAppend(a[n..], x);
        }
      } else {
        assert s[1..] == a[1..] + x;
        TokensAppend(a[1..], x);
      }
    }
  }

  /** Every maximal alphanumeric run of the input is one token. */
  lemma MaximalRunIsToken(a: string, r: string, b: string)
    requires r != [] && AllAlnum(r)
    requires a == [] || !IsAlnum(a[|a| - 1])
    requires b == [] || !IsAlnum(b[0])
    ensures Tokens(a + (r + b)) == Tokens(a) + ([r] + Tokens(b))
  {
    assert (r + b)[0] == r[0];
    TokensAppend(a, r + b);
    TokensOfRun(r, b);
  }

  /** Every character that is neither alphanumeric nor white space is a
      token of its own. */
  lemma SymbolIsToken(a: string, c: char, b: string)
    requires !IsAlnum(c) && !IsPySpace(c)
    ensures Tokens(a + ([c] + b)) == Tokens(a) + ([[c]] + Tokens(b))
  {
    assert ([c] + b)[0] == c;
    TokensAppend(a, [c] + b);
    TokensOfOther(c, b);
  }

  function Concat(ts: seq<string>): string {
    if ts == [] then "" else ts[0] + Concat(ts[1..])
  }

  function RemoveSpace(s: string): string {
    if s == [] then "" else (if IsPySpace(s[0]) then "" else [s[0]]) + RemoveSpace(s[1..])
  }

  lemma {:induction false} RemoveSpaceAppend(a: string, b: string)
    ensures RemoveSpace(a + b) == RemoveSpace(a) + RemoveSpace(b)
  {
    if a != [] {
      assert (a + b)[1..] == a[1..] + b;
      RemoveSpaceAppend(a[1..], b);
    } else {
      assert a + b == b;
    }
  }

  lemma {:induction false} RemoveSpaceOfAlnum(r: string)
    requires AllAlnum(r)
    ensures RemoveSpace(r) == r
  {
    if r != [] {
      RemoveSpaceOfAlnum(r[1..]);
    }
  }

  /** Tokens are non-empty and hold no white space; alphanumeric ones are
      runs, the others single characters; and together they spell the
      input with its white space removed. */
  lemma {:induction false} TokensProperties(s: string)
    ensures forall k :: 0 <= k < |Tokens(s)| ==>
      Tokens(s)[k] != "" && HasNoPySpace(Tokens(s)[k])
      && (AllAlnum(Tokens(s)[k]) || (|Tokens(s)[k]| == 1 && !IsAlnum(Tokens(s)[k][0])))
    ensures Concat(Tokens(s)) == RemoveSpace(s)
    decreases |s|
  {
    if s != [] {
      if IsAlnum(s[0]) {
        var n := AlnumRun(s);
        TokensProperties(s[n..]);
        assert s == s[..n] + s[n..];
        RemoveSpaceAppend(s[..n], s[n..]);
        RemoveSpaceOfAlnum(s[..n]);
        assert Tokens(s)[1..] == Tokens(s[n..]);
      } else if IsPySpace(s[0]) {
        TokensProperties(s[1..]);
      } else {
        TokensProperties(s[1..]);
        assert Tokens(s)[1..] == Tokens(s[1..]);
      }
    }
  }
}
