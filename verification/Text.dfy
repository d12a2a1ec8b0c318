/** Substring search and the replace-all loop used on response messages. */
module Text {
  import opened Options

  ghost predicate OccursAt(s: string, pat: string, i: nat) {
    i + |pat| <= |s| && s[i..i + |pat|] == pat
  }

  /** The least position at or after `from` where `pat` occurs. */
  function Find(s: string, pat: string, from: nat): (r: Option<nat>)
    ensures r.Some? ==> from <= r.value && OccursAt(s, pat, r.value)
    decreases |s| - from
  {
    if from + |pat| > |s| then None
    else if s[from..from + |pat|] == pat then Some(from)
    else Find(s, pat, from + 1)
  }

  /** Nothing is found before, and nothing is missed at, a place where `pat` occurs. */
  lemma {:induction false} FindIsLeast(s: string, pat: string, from: nat, i: nat)
    requires from <= i && OccursAt(s, pat, i)
    ensures Find(s, pat, from).Some? && Find(s, pat, from).value <= i
    decreases i - from
  {
    if s[from..from + |pat|] != pat {
      FindIsLeast(s, pat, from + 1, i);
    }
  }

  /** What a text starts with occurs wherever the text does. */
  lemma PrefixOccurs(s: string, prefix: string, rest: string, i: nat)
    requires OccursAt(s, prefix + rest, i)
    ensures OccursAt(s, prefix, i)
  {
    assert s[i..i + |prefix|] == (prefix + rest)[..|prefix|];
  }

  predicate Contains(s: string, pat: string) {
    Find(s, pat, 0).Some?
  }

  /** A character of an occurring pattern occurs. */
  lemma ContainedCharacter(s: string, pat: string, c: char)
    requires Contains(s, pat) && c in pat
    ensures c in s
  {
    var i := Find(s, pat, 0).value;
    assert c in s[i..i + |pat|];
  }

  /** Cuts `s` at the leftmost non-overlapping occurrences of `sep`. */
  function Split(s: string, sep: string): (ps: seq<string>)
    requires |sep| > 0
    ensures |ps| > 0
    decreases |s|
  {
    var i := Find(s, sep, 0);
    if i.None? then [s] else [s[..i.value]] + Split(s[i.value + |sep|..], sep)
  }

  function Join(ps: seq<string>, sep: string): string
    requires |ps| > 0
  {
    if |ps| == 1 then ps[0] else ps[0] + sep + Join(ps[1..], sep)
  }

  function Replaced(s: string, from: string, to: string): string
    requires |from| > 0
  {
    Join(Split(s, from), to)
  }

  lemma {:induction false} FindInSuffix(s: string, pat: string, k: nat, from: nat)
    requires k <= |s|
    ensures var f, g := Find(s, pat, k + from), Find(s[k..], pat, from);
            f.Some? == g.Some? && (f.Some? ==> f.value == k + g.value)
    decreases |s| - from
  {
    if k + from + |pat| <= |s| {
      assert s[k + from..k + from + |pat|] == s[k..][from..from + |pat|];
      FindInSuffix(s, pat, k, from + 1);
    }
  }

  lemma ReplacedUnfolds(s: string, from: string, to: string)
    requires |from| > 0
    ensures var f := Find(s, from, 0);
            Replaced(s, from, to) ==
            if f.None? then s else s[..f.value] + to + Replaced(s[f.value + |from|..], from, to)
  {
    var f := Find(s, from, 0);
    if f.Some? {
      assert Split(s, from)[1..] == Split(s[f.value + |from|..], from);
    }
  }

  /** What the rewriting loop still owes: a finished head and an unread rest. */
  ghost predicate Pending(goal: string, r: string, startPos: nat, from: string, to: string)
    requires |from| > 0
  {
    startPos <= |r| && r[..startPos] + Replaced(r[startPos..], from, to) == goal
  }

  /** The in-place loop computes the split-and-join; the text may grow, the unread rest shrinks. */
  method ReplaceAll(str: string, from: string, to: string) returns (r: string)
    requires |from| > 0
    ensures r == Replaced(str, from, to)
  {
    r := str;
    var startPos: nat := 0;
    ghost var goal := Replaced(str, from, to);
    assert Pending(goal, r, startPos, from, to) by {
      assert r[0..] == r;
    }
    var found := Find(r, from, startPos);
    while found.Some?
      invariant found == Find(r, from, startPos)
      invariant Pending(goal, r, startPos, from, to)
      decreases |r| - startPos
    {
      ghost var before, oldPos := r, startPos;
      r, startPos := Substitute(r, startPos, found.value, from, to);
      PendingAfterReplace(goal, before, oldPos, r, startPos, from, to);
      found := Find(r, from, startPos);
    }
    PendingAtEnd(goal, r, startPos, from, to);
  }

  /** One turn of the loop: the text up to the new start is final, the text after it is unread. */
  method Substitute(s: string, startPos: nat, i: nat, from: string, to: string) returns (r: string, next: nat)
    requires startPos <= i && OccursAt(s, from, i)
    ensures next <= |r| && |r| - next == |s| - i - |from|
    ensures r[next..] == s[startPos..][i - startPos + |from|..]
    ensures r[..next] == s[..startPos] + (s[startPos..][..i - startPos] + to)
  {
    r := s[..i] + to + s[i + |from|..];
    next := i + |to|;
    assert s[..i] == s[..startPos] + s[startPos..][..i - startPos];
  }

  lemma PendingAfterReplace(goal: string, s: string, startPos: nat, r: string, next: nat, from: string, to: string)
    requires |from| > 0 && Pending(goal, s, startPos, from, to)
    requires Find(s, from, startPos).Some? && next <= |r|
    requires var k := Find(s, from, startPos).value - startPos;
             && r[next..] == s[startPos..][k + |from|..]
             && r[..next] == s[..startPos] + (s[startPos..][..k] + to)
    ensures Pending(goal, r, next, from, to)
  {
    hide Find, Replaced;
    FindInSuffix(s, from, startPos, 0);
    OneCutDone(goal, s[..startPos], s[startPos..], from, to);
  }

  /** One replacement moves the text up to the cut to the finished head. */
  lemma OneCutDone(goal: string, done: string, rest: string, from: string, to: string)
    requires |from| > 0 && Find(rest, from, 0).Some? && done + Replaced(rest, from, to) == goal
    ensures var k := Find(rest, from, 0).value;
            (done + (rest[..k] + to)) + Replaced(rest[k + |from|..], from, to) == goal
  {
    ReplacedUnfolds(rest, from, to);
    hide Find, Replaced;
    var k := Find(rest, from, 0).value;
    Regroup(done, rest[..k] + to, Replaced(rest[k + |from|..], from, to));
  }

  lemma PendingAtEnd(goal: string, r: string, startPos: nat, from: string, to: string)
    requires |from| > 0 && Pending(goal, r, startPos, from, to)
    requires Find(r, from, startPos).None?
    ensures r == goal
  {
    FindInSuffix(r, from, startPos, 0);
    ReplacedUnfolds(r[startPos..], from, to);
    assert r == r[..startPos] + r[startPos..];
  }

  lemma Regroup(a: string, b: string, c: string)
    ensures a + (b + c) == (a + b) + c
  {
  }

  lemma {:induction false} JoinUndoesSplit(s: string, sep: string)
    requires |sep| > 0
    ensures Join(Split(s, sep), sep) == s
    decreases |s|
  {
    var i := Find(s, sep, 0);
    if i.Some? {
      var rest := s[i.value + |sep|..];
      JoinUndoesSplit(rest, sep);
      assert Split(s, sep)[1..] == Split(rest, sep);
      assert s == s[..i.value] + s[i.value..i.value + |sep|] + rest;
    }
  }

  lemma OneMore(k: int, d: int)
    ensures (k + 1) * d == k * d + d
  {
  }

  /** Every replacement adds |to| - |from| characters. */
  lemma {:induction false} ReplacedLength(s: string, from: string, to: string)
    requires |from| > 0
    ensures |Replaced(s, from, to)| == |s| + (|Split(s, from)| - 1) * (|to| - |from|)
    decreases |s|
  {
    var i := Find(s, from, 0);
    if i.Some? {
      var rest := s[i.value + |from|..];
      var ps := Split(rest, from);
      ReplacedLength(rest, from, to);
      assert Split(s, from) == [s[..i.value]] + ps;
      assert Split(s, from)[1..] == ps;
      OneMore(|ps| - 1, |to| - |from|);
    }
  }

  lemma {:induction false} PiecesAreClean(s: string, sep: string)
    requires |sep| > 0
    ensures forall p :: p in Split(s, sep) ==> !Contains(p, sep)
    ensures forall p, c :: p in Split(s, sep) && c in p ==> c in s
    decreases |s|
  {
    var i := Find(s, sep, 0);
    if i.Some? {
      var p := s[..i.value];
      if Contains(p, sep) {
        var j := Find(p, sep, 0).value;
        assert s[j..j + |sep|] == p[j..j + |sep|];
        FindIsLeast(s, sep, 0, j);
      }
      PiecesAreClean(s[i.value + |sep|..], sep);
    }
  }

  lemma {:induction false} JoinCharacters(ps: seq<string>, sep: string, c: char)
    requires |ps| > 0 && c !in sep
    requires forall p :: p in ps ==> c !in p
    ensures c !in Join(ps, sep)
  {
    if |ps| > 1 {
      JoinCharacters(ps[1..], sep, c);
    }
  }

  /** Splitting at a separator whose first character is foreign to the pieces finds exactly the joints. */
  lemma {:induction false} SplitUndoesJoin(ps: seq<string>, sep: string)
    requires |ps| > 0 && |sep| > 0
    requires forall p :: p in ps ==> sep[0] !in p
    ensures Split(Join(ps, sep), sep) == ps
  {
    var s, p := Join(ps, sep), ps[0];
    var f := Find(s, sep, 0);
    assert p in ps;
    if f.Some? {
      assert s[f.value] == sep[0];
    }
    if |ps| > 1 {
      var rest := Join(ps[1..], sep);
      assert s[|p|..|p| + |sep|] == sep;
      FindIsLeast(s, sep, 0, |p|);
      assert s[|p| + |sep|..] == rest && s[..|p|] == p;
      SplitUndoesJoin(ps[1..], sep);
      assert ps == [p] + ps[1..];
    }
  }

  /** Replacing back recovers every text in which the first character of `to` does not occur. */
  lemma ReplaceBack(s: string, from: string, to: string)
    requires |from| > 0 && |to| > 0
    requires to[0] !in s
    ensures Replaced(Replaced(s, from, to), to, from) == s
  {
    PiecesAreClean(s, from);
    SplitUndoesJoin(Split(s, from), to);
    JoinUndoesSplit(s, from);
  }

  const LINE_BREAK := "<br><br>"

  /** The rewriting of a upnp response: no newline survives, and a message without '<' can be read back. */
  lemma HtmlLineBreaks(s: string)
    ensures '\n' !in Replaced(s, "\n", LINE_BREAK)
    ensures '<' !in s ==> Replaced(Replaced(s, "\n", LINE_BREAK), LINE_BREAK, "\n") == s
  {
    var nl := "\n";
    PiecesAreClean(s, nl);
    forall p | p in Split(s, nl)
      ensures '\n' !in p
    {
      forall i: nat | i < |p|
        ensures p[i] != '\n'
      {
        if p[i] == '\n' {
          assert p[i..i + 1] == nl;
          FindIsLeast(p, nl, 0, i);
        }
      }
    }
    JoinCharacters(Split(s, nl), LINE_BREAK, '\n');
    if '<' !in s {
      ReplaceBack(s, nl, LINE_BREAK);
    }
  }
}
