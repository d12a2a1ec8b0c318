/** Rewriting the device of a rule action, "type;device;value;...", by splicing the string. */
module Actions {
  import opened Options
  import opened Text
  import opened Tokens

  const SEMICOLON := ';'

  /** The place the splice cuts out always exists: a token occurs, and the empty string does too. */
  lemma {:induction false} TokenOccurs(s: string, d: char, k: nat)
    requires d != NUL
    ensures Find(s, TokenAt(s, d, k), 0).Some?
    decreases |s|
  {
    var w := TokenAt(s, d, k);
    if k >= |TokensOf(s, d)| {
      FindIsLeast(s, w, 0, 0);
    } else if s[0] == d {
      TokenOccurs(s[1..], d, k);
      OccursInSuffix(s, w, 1);
    } else if k == 0 {
      FindIsLeast(s, w, 0, 0);
    } else {
      var e := TokenEnd(s, 0, d);
      TokenOccurs(s[e..], d, k - 1);
      OccursInSuffix(s, w, e);
    }
  }

  lemma OccursInSuffix(s: string, w: string, k: nat)
    requires k <= |s| && Find(s[k..], w, 0).Some?
    ensures Find(s, w, 0).Some?
  {
    var i := Find(s[k..], w, 0).value;
    assert s[k + i..k + i + |w|] == s[k..][i..i + |w|];
    FindIsLeast(s, w, 0, k + i);
  }

  /** The rewritten action: the first occurrence of the second token gives way to ";" id ";". */
  function Spliced(action: string, id: string): string {
    var device := TokenAt(action, SEMICOLON, 1);
    TokenOccurs(action, SEMICOLON, 1);
    var pos := Find(action, device, 0).value;
    action[..pos] + ";" + id + ";" + action[pos + |device|..]
  }

  /** Tokens of a text cut at a delimiter are the tokens of its parts. */
  lemma {:induction false} TokensConcat(a: string, b: string, d: char)
    requires d != NUL && NulFree(a)
    requires b == "" || b[0] == d || b[0] == NUL
    ensures TokensOf(a + b, d) == TokensOf(a, d) + TokensOf(b, d)
    decreases |a|
  {
    if a == "" {
      assert a + b == b;
    } else if a[0] == d {
      assert (a + b)[1..] == a[1..] + b;
      TokensConcat(a[1..], b, d);
    } else {
      var e := TokenEnd(a, 0, d);
      TokenEndInPrefix(a, b, 0, d);
      assert (a + b)[..e] == a[..e] && (a + b)[e..] == a[e..] + b;
      TokensConcat(a[e..], b, d);
    }
  }

  lemma {:induction false} TokenEndInPrefix(a: string, b: string, i: nat, d: char)
    requires d != NUL && NulFree(a) && i <= |a|
    requires b == "" || b[0] == d || b[0] == NUL
    ensures TokenEnd(a + b, i, d) == TokenEnd(a, i, d)
    decreases |a| - i
  {
    if i < |a| && a[i] != d {
      TokenEndInPrefix(a, b, i + 1, d);
    }
  }

  /** A word is one token, the empty word none. */
  function WordTokens(w: string): seq<string> {
    if w == "" then [] else [w]
  }

  lemma TokensOfWord(w: string, rest: string, d: char)
    requires d != NUL && IsWord(w, d)
    requires rest == "" || rest[0] == d || rest[0] == NUL
    ensures TokensOf(w, d) == WordTokens(w)
    ensures TokensOf(w + rest, d) == WordTokens(w) + TokensOf(rest, d)
  {
    TokensConcat(w, rest, d);
    if w != "" {
      forall j | 0 <= j < |w|
        ensures w[j] != d && w[j] != NUL
      {
        assert w[j] in w;
      }
      assert w[..|w|] == w && w[|w|..] == "";
    }
  }

  /** Tokens of a splice: those before, the new word, those after. */
  lemma TokensOfSplice(a: string, id: string, b: string)
    requires NulFree(a) && IsWord(id, SEMICOLON) && id != ""
    ensures TokensOf(a + ";" + id + ";" + b, SEMICOLON) == TokensOf(a, SEMICOLON) + [id] + TokensOf(b, SEMICOLON)
  {
    var d := SEMICOLON;
    var tail := ";" + b;
    assert tail[1..] == b;
    TokensOfWord(id, tail, d);
    var mid := ";" + (id + tail);
    assert mid[1..] == id + tail;
    TokensConcat(a, mid, d);
    assert a + ";" + id + ";" + b == a + mid;
  }

  /** Where the first two tokens of a string lie. */
  ghost predicate FirstTwo(s: string, b0: nat, e0: nat, b1: nat, e1: nat) {
    && b0 < e0 < b1 < e1 <= |s|
    && (forall j :: 0 <= j < b0 || e0 <= j < b1 ==> s[j] == SEMICOLON)
    && IsWord(s[b0..e0], SEMICOLON) && IsWord(s[b1..e1], SEMICOLON)
    && (e1 < |s| ==> s[e1] == SEMICOLON || s[e1] == NUL)
    && var ts := TokensOf(s, SEMICOLON);
       && |ts| >= 2 && ts[0] == s[b0..e0] && ts[1] == s[b1..e1]
       && TokensOf(s[e0..], SEMICOLON) == ts[1..]
       && TokensOf(s[e1..], SEMICOLON) == ts[2..]
  }

  lemma FirstToken(s: string) returns (b: nat, e: nat)
    requires |TokensOf(s, SEMICOLON)| > 0
    ensures b < e <= |s| && (forall j :: 0 <= j < b ==> s[j] == SEMICOLON)
    ensures forall j :: b <= j < e ==> s[j] != SEMICOLON && s[j] != NUL
    ensures e < |s| ==> s[e] == SEMICOLON || s[e] == NUL
    ensures TokensOf(s, SEMICOLON) == [s[b..e]] + TokensOf(s[e..], SEMICOLON)
  {
    var d := SEMICOLON;
    b := SkipDelimiters(s, 0, d);
    e := TokenEnd(s, b, d);
    assert s[0..] == s;
    SkippedTokens(s, 0, d);
    TokenHere(s, b, d);
  }

  lemma LocateFirstTwo(s: string) returns (b0: nat, e0: nat, b1: nat, e1: nat)
    requires |TokensOf(s, SEMICOLON)| >= 2
    ensures FirstTwo(s, b0, e0, b1, e1)
  {
    hide TokensOf;
    b0, e0 := FirstToken(s);
    var rest := s[e0..];
    var b, e := FirstToken(rest);
    b1, e1 := e0 + b, e0 + e;
    SliceOfTail(s, e0, b, e);
    assert rest[e..] == s[e1..];
    forall j | e0 <= j < b1
      ensures s[j] == SEMICOLON
    {
      assert s[j] == rest[j - e0];
    }
    assert e1 < |s| ==> s[e1] == rest[e];
    assert s[e0] == rest[0];
  }

  lemma SliceOfTail(s: string, a: nat, i: nat, j: nat)
    requires a <= |s| && i <= j <= |s| - a
    ensures s[a..][i..j] == s[a + i..a + j]
  {
    assert forall k :: 0 <= k < j - i ==> s[a..][i..j][k] == s[a + i..a + j][k];
  }

  lemma SliceOfSlice(s: string, a: nat, b: nat, i: nat, j: nat)
    requires a <= b <= |s| && i <= j <= b - a
    ensures s[a..b][i..j] == s[a + i..a + j]
  {
    assert forall k :: 0 <= k < j - i ==> s[a..b][i..j][k] == s[a + i..a + j][k];
  }

  lemma OccurrenceIsWord(s: string, w: string, p: nat, d: char)
    requires OccursAt(s, w, p) && IsWord(w, d)
    ensures forall k :: p <= k < p + |w| ==> s[k] != d && s[k] != NUL
  {
    forall k | p <= k < p + |w|
      ensures s[k] in w
    {
      assert s[p..p + |w|][k - p] == s[k];
    }
  }

  /** An occurrence of the second token ahead of its own place lies inside the first. */
  lemma EarlyHitIsInside(s: string, b0: nat, e0: nat, b1: nat, e1: nat, p: nat)
    requires FirstTwo(s, b0, e0, b1, e1)
    requires p < b1 && OccursAt(s, s[b1..e1], p)
    ensures b0 <= p && OccursAt(s[b0..e0], s[b1..e1], p - b0)
  {
    var t1 := s[b1..e1];
    OccurrenceIsWord(s, t1, p, SEMICOLON);
    assert s[p] != SEMICOLON && s[e0] == SEMICOLON;
    assert b0 <= p && p + |t1| <= e0;
    SliceOfSlice(s, b0, e0, p - b0, p - b0 + |t1|);
  }

  lemma InsideHitIsEarly(s: string, b: nat, e: nat, w: string, q: nat)
    requires b <= e <= |s| && OccursAt(s[b..e], w, q)
    ensures Find(s, w, 0).Some? && Find(s, w, 0).value <= b + q
  {
    SliceOfSlice(s, b, e, q, q + |w|);
    FindIsLeast(s, w, 0, b + q);
  }

  /** The search hits the second token itself, unless the first token already contains it. */
  lemma SearchHitsSecond(s: string, b0: nat, e0: nat, b1: nat, e1: nat)
    requires FirstTwo(s, b0, e0, b1, e1) && !Contains(s[b0..e0], s[b1..e1])
    ensures Find(s, s[b1..e1], 0) == Some(b1)
  {
    var t0, t1 := s[b0..e0], s[b1..e1];
    FindIsLeast(s, t1, 0, b1);
    var p := Find(s, t1, 0).value;
    if p < b1 {
      EarlyHitIsInside(s, b0, e0, b1, e1, p);
      FindIsLeast(t0, t1, 0, p - b0);
    }
  }

  lemma SearchHitsFirst(s: string, b0: nat, e0: nat, b1: nat, e1: nat)
    requires FirstTwo(s, b0, e0, b1, e1) && Contains(s[b0..e0], s[b1..e1])
    ensures Find(s, s[b1..e1], 0) == Some(b0 + Find(s[b0..e0], s[b1..e1], 0).value)
  {
    var t0, t1 := s[b0..e0], s[b1..e1];
    var q := Find(t0, t1, 0).value;
    InsideHitIsEarly(s, b0, e0, t1, q);
    var p := Find(s, t1, 0).value;
    assert p <= b0 + q < b1;
    EarlyHitIsInside(s, b0, e0, b1, e1, p);
    FindIsLeast(t0, t1, 0, p - b0);
    assert q <= p - b0;
  }

  /** Token 1 replaced, or the first token cut open around the new device when it contains the old one. */
  function SplicedTokens(ts: seq<string>, id: string): seq<string>
    requires |ts| >= 2
  {
    if Contains(ts[0], ts[1]) then CutTokens(ts[0], Find(ts[0], ts[1], 0).value, |ts[1]|, id) + ts[1..]
    else ts[1 := id]
  }

  function CutTokens(w: string, q: nat, n: nat, id: string): seq<string>
    requires q + n <= |w|
  {
    WordTokens(w[..q]) + [id] + WordTokens(w[q + n..])
  }

  function Cut(s: string, pos: nat, end: nat, id: string): string
    requires pos <= end <= |s|
  {
    s[..pos] + ";" + id + ";" + s[end..]
  }

  lemma CutInsideFirst(s: string, id: string, b: nat, e: nat, q: nat, n: nat)
    requires b <= e <= |s| && b + q + n <= e
    requires forall j :: 0 <= j < b ==> s[j] == SEMICOLON
    requires IsWord(s[b..e], SEMICOLON)
    requires e < |s| ==> s[e] == SEMICOLON || s[e] == NUL
    requires IsWord(id, SEMICOLON) && id != ""
    ensures TokensOf(Cut(s, b + q, b + q + n, id), SEMICOLON) ==
            CutTokens(s[b..e], q, n, id) + TokensOf(s[e..], SEMICOLON)
  {
    var w := s[b..e];
    var head, tail := w[..q], w[q + n..];
    PrefixTokens(s, b, head);
    SliceOfSlice(s, b, e, 0, q);
    assert s[..b] + head == s[..b + q];
    TokensOfSplice(s[..b + q], id, s[b + q + n..]);
    SliceOfSlice(s, b, e, q + n, |w|);
    assert s[b + q + n..] == tail + s[e..];
    TokensOfWord(tail, s[e..], SEMICOLON);
    RegroupTokens(WordTokens(head) + [id], WordTokens(tail), TokensOf(s[e..], SEMICOLON));
  }

  lemma RegroupTokens(a: seq<string>, b: seq<string>, c: seq<string>)
    ensures a + (b + c) == a + b + c
  {
  }

  lemma CutAtSecond(s: string, id: string, b0: nat, e0: nat, b1: nat, e1: nat)
    requires FirstTwo(s, b0, e0, b1, e1)
    requires IsWord(id, SEMICOLON) && id != ""
    ensures TokensOf(Cut(s, b1, e1, id), SEMICOLON) == TokensOf(s, SEMICOLON)[1 := id]
  {
    var t0, gap := s[b0..e0], s[e0..b1];
    PrefixTokens(s, b0, t0);
    DelimitersOnly(gap);
    assert s[..b0] + t0 == s[..e0] && s[..e0] + gap == s[..b1];
    TokensConcat(s[..e0], gap, SEMICOLON);
    TokensOfSplice(s[..b1], id, s[e1..]);
  }

  lemma SpliceIsCut(s: string, id: string, b0: nat, e0: nat, b1: nat, e1: nat)
    requires FirstTwo(s, b0, e0, b1, e1)
    ensures var t0, t1 := s[b0..e0], s[b1..e1];
            var pos := if Contains(t0, t1) then b0 + Find(t0, t1, 0).value else b1;
            pos + |t1| <= |s| && Spliced(s, id) == Cut(s, pos, pos + |t1|, id)
  {
    hide TokensOf, Find;
    if Contains(s[b0..e0], s[b1..e1]) {
      SearchHitsFirst(s, b0, e0, b1, e1);
    } else {
      SearchHitsSecond(s, b0, e0, b1, e1);
    }
    TokenOccurs(s, SEMICOLON, 1);
  }

  /** What the splice does to the tokens of any action with a device token. */
  lemma SpliceTokens(s: string, id: string)
    requires |TokensOf(s, SEMICOLON)| >= 2
    requires IsWord(id, SEMICOLON) && id != ""
    ensures TokensOf(Spliced(s, id), SEMICOLON) == SplicedTokens(TokensOf(s, SEMICOLON), id)
  {
    hide TokensOf, Find, Spliced, Cut, CutTokens;
    var b0, e0, b1, e1 := LocateFirstTwo(s);
    var t0, t1, ts := s[b0..e0], s[b1..e1], TokensOf(s, SEMICOLON);
    SpliceIsCut(s, id, b0, e0, b1, e1);
    assert ts[0] == t0 && ts[1] == t1;
    if Contains(t0, t1) {
      CutInsideFirst(s, id, b0, e0, Find(t0, t1, 0).value, |t1|);
    } else {
      CutAtSecond(s, id, b0, e0, b1, e1);
    }
  }

  lemma {:induction false} DelimitersOnly(s: string)
    requires forall j :: 0 <= j < |s| ==> s[j] == SEMICOLON
    ensures NulFree(s) && TokensOf(s, SEMICOLON) == []
  {
    if s != "" {
      DelimitersOnly(s[1..]);
    }
  }

  lemma PrefixTokens(s: string, b: nat, w: string)
    requires b <= |s| && IsWord(w, SEMICOLON)
    requires forall j :: 0 <= j < b ==> s[j] == SEMICOLON
    ensures NulFree(s[..b] + w) && TokensOf(s[..b] + w, SEMICOLON) == WordTokens(w)
    decreases b
  {
    TokensOfWord(w, "", SEMICOLON);
    if b == 0 {
      assert s[..b] + w == w;
    } else {
      assert (s[..b] + w)[1..] == s[1..][..b - 1] + w;
      PrefixTokens(s[1..], b - 1, w);
    }
  }

  /** The splice replaces exactly token 1 unless the first token contains the second and they are not all equal. */
  lemma SpliceReplacesDevice(s: string, id: string)
    requires |TokensOf(s, SEMICOLON)| >= 2
    requires IsWord(id, SEMICOLON) && id != ""
    ensures var ts := TokensOf(s, SEMICOLON);
            TokensOf(Spliced(s, id), SEMICOLON) == ts[1 := id] <==>
            !Contains(ts[0], ts[1]) || ts[0] == ts[1] == id
  {
    SpliceTokens(s, id);
    CutOrReplaced(TokensOf(s, SEMICOLON), id);
  }

  lemma CutOrReplaced(ts: seq<string>, id: string)
    requires |ts| >= 2
    ensures SplicedTokens(ts, id) == ts[1 := id] <==> !Contains(ts[0], ts[1]) || ts[0] == ts[1] == id
  {
    if Contains(ts[0], ts[1]) {
      var q := Find(ts[0], ts[1], 0).value;
      var cut := CutTokens(ts[0], q, |ts[1]|, id);
      assert |ts[1 := id]| == 1 + |ts[1..]|;
      if ts[0] == ts[1] {
        assert cut == [id];
        assert (cut + ts[1..])[1] == ts[1] && ts[1 := id][1] == id;
      } else {
        assert |ts[0]| != |ts[1]| by {
          assert ts[0][q..q + |ts[1]|] == ts[1];
        }
        assert |cut| > 1;
      }
    }
  }

  /** An action that names no device gets one put in front. */
  lemma SpliceWithoutDevice(s: string, id: string)
    requires |TokensOf(s, SEMICOLON)| < 2
    requires IsWord(id, SEMICOLON) && id != ""
    ensures TokensOf(Spliced(s, id), SEMICOLON) == [id] + TokensOf(s, SEMICOLON)
  {
    FindIsLeast(s, "", 0, 0);
    assert Spliced(s, id) == "" + ";" + id + ";" + s;
    TokensOfSplice("", id, s);
  }
}
