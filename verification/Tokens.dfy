/** The C tokenizer as the tester uses it, and the action strings it rewrites. */
module Tokens {
  import opened Options
  import opened Text

  const NUL: char := '\0'

  predicate NulFree(s: string) {
    NUL !in s
  }

  /** The first position at or after `i` that is not the delimiter. */
  function SkipDelimiters(s: string, i: nat, d: char): (e: nat)
    requires i <= |s|
    ensures i <= e <= |s|
    ensures e < |s| ==> s[e] != d
    ensures forall j :: i <= j < e ==> s[j] == d
    decreases |s| - i
  {
    if i < |s| && s[i] == d then SkipDelimiters(s, i + 1, d) else i
  }

  /** The first position at or after `i` that ends a token: a delimiter, the terminator or the end. */
  function TokenEnd(s: string, i: nat, d: char): (e: nat)
    requires i <= |s|
    ensures i <= e <= |s|
    ensures e < |s| ==> s[e] == d || s[e] == NUL
    ensures forall j :: i <= j < e ==> s[j] != d && s[j] != NUL
    decreases |s| - i
  {
    if i < |s| && s[i] != d && s[i] != NUL then TokenEnd(s, i + 1, d) else i
  }

  /** A token's place in the buffer, the buffer with the token's end overwritten, and where to go on. */
  datatype Strtok = Strtok(token: Option<string>, buffer: string, save: nat)

  /** One call of the reentrant tokenizer (C11 section 7.24.5.8) for a single delimiter. */
  function StrtokR(s: string, from: nat, d: char): (r: Strtok)
    requires from <= |s| && d != NUL
    ensures |r.buffer| == |s| && from <= r.save <= |s|
    ensures forall j :: 0 <= j < |s| ==> r.buffer[j] == s[j] || (s[j] == d && r.buffer[j] == NUL)
    ensures r.buffer[r.save..] == s[r.save..]
  {
    var b := SkipDelimiters(s, from, d);
    var e := TokenEnd(s, b, d);
    if b == e then Strtok(None, s, b)
    else if e < |s| && s[e] == d then Strtok(Some(s[b..e]), s[e := NUL], e + 1)
    else Strtok(Some(s[b..e]), s, e)
  }

  /** All the tokens the successive calls deliver. */
  function TokensOf(s: string, d: char): seq<string>
    decreases |s|
  {
    if s == "" || s[0] == NUL then []
    else if s[0] == d then TokensOf(s[1..], d)
    else
      var e := TokenEnd(s, 0, d);
      [s[..e]] + TokensOf(s[e..], d)
  }

  function TokenAt(s: string, d: char, k: nat): string {
    if k < |TokensOf(s, d)| then TokensOf(s, d)[k] else ""
  }

  lemma {:induction false} TokenEndInSuffix(s: string, k: nat, i: nat, d: char)
    requires k <= i <= |s|
    ensures TokenEnd(s[k..], i - k, d) == TokenEnd(s, i, d) - k
    decreases |s| - i
  {
    if i < |s| && s[i] != d && s[i] != NUL {
      TokenEndInSuffix(s, k, i + 1, d);
    }
  }

  lemma {:induction false} SkippedTokens(s: string, from: nat, d: char)
    requires from <= |s| && d != NUL
    ensures TokensOf(s[from..], d) == TokensOf(s[SkipDelimiters(s, from, d)..], d)
    decreases |s| - from
  {
    if from < |s| && s[from] == d {
      assert s[from..][1..] == s[from + 1..];
      SkippedTokens(s, from + 1, d);
    }
  }

  lemma TokenHere(s: string, b: nat, d: char)
    requires b < |s| && s[b] != d && s[b] != NUL
    ensures var e := TokenEnd(s, b, d);
            TokensOf(s[b..], d) == [s[b..e]] + TokensOf(s[e..], d)
  {
    var e := TokenEnd(s, b, d);
    TokenEndInSuffix(s, b, b, d);
    assert s[b..][..e - b] == s[b..e] && s[b..][e - b..] == s[e..];
  }

  lemma NoTokenHere(s: string, b: nat, d: char)
    requires b <= |s| && (b < |s| ==> s[b] == NUL) && d != NUL
    ensures TokensOf(s[b..], d) == []
  {
  }

  lemma SkipOne(s: string, e: nat, d: char)
    requires e <= |s| && d != NUL
    ensures e < |s| && s[e] == d ==> TokensOf(s[e..], d) == TokensOf(s[e + 1..], d)
  {
    if e < |s| {
      assert s[e..][1..] == s[e + 1..];
    }
  }

  /** One call delivers the first remaining token and leaves the others. */
  lemma StrtokTakesOne(s: string, from: nat, d: char)
    requires from <= |s| && d != NUL
    ensures var r, ts := StrtokR(s, from, d), TokensOf(s[from..], d);
            if r.token.None? then ts == []
            else ts == [r.token.value] + TokensOf(r.buffer[r.save..], d)
  {
    hide TokensOf, SkipDelimiters, TokenEnd;
    var b := SkipDelimiters(s, from, d);
    var e := TokenEnd(s, b, d);
    SkippedTokens(s, from, d);
    if b < e {
      TokenHere(s, b, d);
      SkipOne(s, e, d);
    } else {
      NoTokenHere(s, b, d);
    }
  }

  /** A marked buffer differs from its original only where delimiters became terminators. */
  ghost predicate Marked(m: string, s: string, d: char) {
    |m| == |s| && forall j :: 0 <= j < |s| ==> m[j] == s[j] || (s[j] == d && m[j] == NUL)
  }

  /** Neither delimiters nor terminators occur in a token. */
  predicate IsWord(w: string, d: char) {
    d !in w && NUL !in w
  }

  /** Searching a word in the marked buffer gives the position it has in the original. */
  lemma {:induction false} FindInMarked(m: string, s: string, w: string, d: char, from: nat)
    requires Marked(m, s, d) && IsWord(w, d)
    ensures Find(m, w, from) == Find(s, w, from)
    decreases |s| - from
  {
    if from + |w| <= |s| {
      if m[from..from + |w|] == w {
        forall j | 0 <= j < |w|
          ensures s[from + j] == w[j]
        {
          assert m[from..from + |w|][j] == w[j];
        }
      }
      if s[from..from + |w|] == w {
        forall j | 0 <= j < |w|
          ensures m[from + j] == w[j]
        {
          assert s[from..from + |w|][j] == w[j];
          assert w[j] in w;
        }
      }
      assert s[from..from + |w|] == w <==> m[from..from + |w|] == w;
      FindInMarked(m, s, w, d, from + 1);
    }
  }

  lemma {:induction false} TokensAreWords(s: string, d: char)
    requires d != NUL
    ensures forall w :: w in TokensOf(s, d) ==> w != "" && IsWord(w, d)
    decreases |s|
  {
    if s == "" || s[0] == NUL {
    } else if s[0] == d {
      TokensAreWords(s[1..], d);
    } else {
      TokensAreWords(s[TokenEnd(s, 0, d)..], d);
    }
  }

  /** The loop, written twice in the source, that stops at the second token of a buffer. */
  method SecondToken(s: string, d: char) returns (token: string, buffer: string)
    requires d != NUL
    ensures token == TokenAt(s, d, 1)
    ensures Marked(buffer, s, d)
  {
    token, buffer := "", s;
    var cnt := 0;
    var call := StrtokR(buffer, 0, d);
    assert s[0..] == s;
    StrtokTakesOne(buffer, 0, d);
    buffer := call.buffer;
    while call.token.Some?
      invariant Marked(buffer, s, d) && call.save <= |buffer|
      invariant token == "" && 0 <= cnt <= 1 && cnt <= |TokensOf(s, d)|
      invariant TokensOf(s, d)[cnt..] ==
                if call.token.None? then [] else [call.token.value] + TokensOf(buffer[call.save..], d)
      decreases 2 - cnt
    {
      if cnt == 1 {
        token := call.token.value;
        return;
      }
      cnt := cnt + 1;
      StrtokTakesOne(buffer, call.save, d);
      call := StrtokR(buffer, call.save, d);
      buffer := call.buffer;
    }
  }
}
