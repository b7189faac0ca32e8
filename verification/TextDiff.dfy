/** The diff of two versions of a rule: which lines are new, and which are gone, counted with
    repetition. */
module TextDiff {
  import opened Wrappers
  import Variant

  // ---------- Lines ----------

  function DropCR(s: string): string {
    if s == [] then []
    else if |s| >= 2 && s[0] == '\r' && s[1] == '\n' then ['\n'] + DropCR(s[2..])
    else [s[0]] + DropCR(s[1..])
  }

  function TrimNewlines(s: string): string {
    if s != [] && s[|s| - 1] == '\n' then TrimNewlines(s[..|s| - 1]) else s
  }

  /** strings.Split(s, "\n"). */
  function SplitLines(s: string): (lines: seq<string>)
    ensures lines != []
  {
    if s == [] then [[]]
    else
      var rest := SplitLines(s[1..]);
      if s[0] == '\n' then [[]] + rest else [[s[0]] + rest[0]] + rest[1..]
  }

  function JoinLines(lines: seq<string>): string
    requires lines != []
  {
    if |lines| == 1 then lines[0] else lines[0] + ['\n'] + JoinLines(lines[1..])
  }

  /** Joining the lines gives the text back, and no line contains a newline. */
  lemma {:induction false} SplitJoins(s: string)
    ensures JoinLines(SplitLines(s)) == s
    ensures forall i :: 0 <= i < |SplitLines(s)| ==> '\n' !in SplitLines(s)[i]
  {
    if s != [] {
      var rest := SplitLines(s[1..]);
      SplitJoins(s[1..]);
      assert s == [s[0]] + s[1..];
      if s[0] == '\n' {
        assert ([[]] + rest)[1..] == rest;
      } else {
        assert ([[s[0]] + rest[0]] + rest[1..])[1..] == rest[1..];
      }
    }
  }

  function Split(s: string): seq<string> {
    var t := TrimNewlines(DropCR(s));
    if t == "" then [] else SplitLines(t)
  }

  // ---------- What the lines of a text are ----------

  function CRLF(): Variant.Phrase {
    Variant.Phrase(['\r', '\n'], ['\n'])
  }

  /** strings.ReplaceAll(s, "\r\n", "\n"). */
  lemma {:induction false} DropCRReplaces(s: string)
    ensures DropCR(s) == Variant.ReplaceAll(s, CRLF())
  {
    if s != [] {
      var cr := |s| >= 2 && s[0] == '\r' && s[1] == '\n';
      DropCRReplaces(if cr then s[2..] else s[1..]);
      if |s| == 1 {
        assert s == [s[0]] + s[1..];
      }
    }
  }

  lemma {:induction false} TrimNewlinesIs(s: string) returns (tail: string)
    ensures s == TrimNewlines(s) + tail && (forall i :: 0 <= i < |tail| ==> tail[i] == '\n')
    ensures TrimNewlines(s) != "" ==> TrimNewlines(s)[|TrimNewlines(s)| - 1] != '\n'
  {
    tail := "";
    if s != [] && s[|s| - 1] == '\n' {
      tail := TrimNewlinesIs(s[..|s| - 1]);
      tail := tail + ['\n'];
    }
  }

  /** With CRLF replaced, the text is the lines joined by newlines, and newlines at its end; no line
      contains one. */
  ghost predicate AreLinesOf(s: string, lines: seq<string>) {
    exists t, tail: string ::
      && Variant.Replaced(s, CRLF(), t) && (forall i :: 0 <= i < |tail| ==> tail[i] == '\n')
      && t == (if lines == [] then "" else JoinLines(lines)) + tail
      && (forall k :: 0 <= k < |lines| ==> '\n' !in lines[k])
      && (lines != [] ==> lines[|lines| - 1] != "" )
  }

  lemma SplitIs(s: string)
    ensures AreLinesOf(s, Split(s))
  {
    hide DropCR, TrimNewlines, SplitLines, JoinLines, Variant.CutAt, Variant.ReplaceAll;
    var t := DropCR(s);
    DropCRReplaces(s);
    var parts := Variant.ReplaceAllCuts(s, CRLF());
    assert Variant.Replaced(s, CRLF(), t);
    var tail := TrimNewlinesIs(t);
    var body := TrimNewlines(t);
    if body != "" {
      SplitJoins(body);
      LastLine(body);
    }
    assert t == (if Split(s) == [] then "" else JoinLines(Split(s))) + tail;
  }

  lemma {:induction false} LastLine(s: string)
    requires s != "" && s[|s| - 1] != '\n'
    ensures SplitLines(s)[|SplitLines(s)| - 1] != ""
  {
    if |s| > 1 {
      LastLine(s[1..]);
    } else {
      assert SplitLines(s[1..]) == [[]];
    }
  }

  // ---------- The diff ----------

  /** The lines of s beyond what other holds: of each line the first s - other occurrences, in order. */
  function Surplus(s: seq<string>, other: multiset<string>): seq<string> {
    Within(s, multiset(s) - other)
  }

  /** Walk through s, taking each line that the budget still has. */
  function Within(s: seq<string>, budget: multiset<string>): seq<string>
    decreases |s|
  {
    if s == [] then []
    else if s[0] in budget then [s[0]] + Within(s[1..], budget - multiset{s[0]})
    else Within(s[1..], budget)
  }

  lemma {:induction false} WithinSpends(s: seq<string>, budget: multiset<string>)
    requires budget <= multiset(s)
    ensures multiset(Within(s, budget)) == budget
    decreases |s|
  {
    if s == [] {
      assert budget == multiset{};
    } else {
      assert s == [s[0]] + s[1..];
      if s[0] in budget {
        WithinSpends(s[1..], budget - multiset{s[0]});
      } else {
        WithinSpends(s[1..], budget);
      }
    }
  }

  ghost predicate Subsequence(t: seq<string>, s: seq<string>)
    decreases |s|
  {
    if t == [] then true
    else if s == [] then false
    else Subsequence(t, s[1..]) || (t[0] == s[0] && Subsequence(t[1..], s[1..]))
  }

  lemma {:induction false} WithinInOrder(s: seq<string>, budget: multiset<string>)
    ensures Subsequence(Within(s, budget), s)
    decreases |s|
  {
    if s != [] {
      WithinInOrder(s[1..], if s[0] in budget then budget - multiset{s[0]} else budget);
      if s[0] in budget {
        assert ([s[0]] + Within(s[1..], budget - multiset{s[0]}))[1..] == Within(s[1..], budget - multiset{s[0]});
      }
    }
  }

  function Prefixed(prefix: string, lines: seq<string>): seq<string> {
    seq(|lines|, i requires 0 <= i < |lines| => prefix + lines[i])
  }

  datatype Diff = Diff(added: seq<string>, removed: seq<string>, addedLines: nat, removedLines: nat)

  ghost predicate Counts(m: map<string, nat>, s: multiset<string>) {
    (forall k :: Get(m, k) == s[k]) && forall k :: k in s ==> k in m
  }

  /** The first loops: how often each line occurs. */
  method CountLines(s: seq<string>) returns (m: map<string, nat>)
    ensures Counts(m, multiset(s))
  {
    m := map[];
    for i := 0 to |s|
      invariant Counts(m, multiset(s[..i]))
    {
      assert s[..i + 1] == s[..i] + [s[i]];
      m := m[s[i] := Get(m, s[i]) + 1];
    }
    assert s[..|s|] == s;
  }

  /** The middle loops: how many of each line are left over. */
  method Remaining(mine: map<string, nat>, theirs: map<string, nat>, ghost s: multiset<string>, ghost t: multiset<string>)
    returns (rem: map<string, nat>)
    requires Counts(mine, s) && Counts(theirs, t)
    ensures forall k :: Get(rem, k) == (s - t)[k]
  {
    rem := map[];
    var todo := mine.Keys;
    while todo != {}
      invariant todo <= mine.Keys && rem.Keys == mine.Keys - todo
      invariant forall k :: k in rem ==> rem[k] == (s - t)[k]
      decreases todo
    {
      var k :| k in todo;
      var left := mine[k] - Get(theirs, k);
      if left < 0 {
        left := 0;
      }
      rem := rem[k := left];
      assert mine[k] == Get(mine, k) == s[k] && Get(theirs, k) == t[k];
      todo := todo - {k};
    }
    forall k ensures Get(rem, k) == (s - t)[k] {
      if k !in mine {
        assert Get(mine, k) == s[k];
      }
    }
  }

  /** The last loops: the lines of s that are left over, in order. */
  method Pick(s: seq<string>, rem: map<string, nat>, prefix: string, ghost budget: multiset<string>) returns (out: seq<string>)
    requires forall k :: Get(rem, k) == budget[k]
    ensures out == Prefixed(prefix, Within(s, budget))
  {
    out := [];
    var rem := rem;
    ghost var left := budget;
    for i := 0 to |s|
      invariant forall k :: Get(rem, k) == left[k]
      invariant Prefixed(prefix, Within(s, budget)) == out + Prefixed(prefix, Within(s[i..], left))
    {
      assert s[i..][1..] == s[i + 1..];
      assert Get(rem, s[i]) == left[s[i]];
      if Get(rem, s[i]) > 0 {
        PrefixedCons(prefix, s[i], Within(s[i + 1..], left - multiset{s[i]}));
        out := out + [prefix + s[i]];
        rem := rem[s[i] := rem[s[i]] - 1];
        left := left - multiset{s[i]};
      }
    }
    assert out + [] == out;
  }

  lemma PrefixedCons(prefix: string, h: string, t: seq<string>)
    ensures Prefixed(prefix, [h] + t) == [prefix + h] + Prefixed(prefix, t)
  {
  }

  method TextDiff(before: string, after: string) returns (d: Diff)
    ensures d.added == Prefixed("+ ", Surplus(Split(after), multiset(Split(before))))
    ensures d.removed == Prefixed("- ", Surplus(Split(before), multiset(Split(after))))
    ensures d.addedLines == |d.added| && d.removedLines == |d.removed|
    ensures exists a, b :: AreLinesOf(before, a) && AreLinesOf(after, b) && IsDiff(a, b, d)
  {
    hide Split, Within, Counts, Get, Prefixed, AreLinesOf, IsDiff;
    SplitIs(before);
    SplitIs(after);
    var a, b := Split(before), Split(after);
    var ca := CountLines(a);
    var cb := CountLines(b);
    var rem := Remaining(cb, ca, multiset(b), multiset(a));
    var added := Pick(b, rem, "+ ", multiset(b) - multiset(a));
    rem := Remaining(ca, cb, multiset(a), multiset(b));
    var removed := Pick(a, rem, "- ", multiset(a) - multiset(b));
    d := Diff(added, removed, |added|, |removed|);
    DiffIs(a, b, d);
  }

  /** Of each line, d has as many added as b has more of than a, and as many removed as a has more of. */
  ghost predicate IsDiff(a: seq<string>, b: seq<string>, d: Diff) {
    exists added, removed ::
      && |d.added| == |added| && (forall i :: 0 <= i < |added| ==> d.added[i] == "+ " + added[i])
      && |d.removed| == |removed| && (forall i :: 0 <= i < |removed| ==> d.removed[i] == "- " + removed[i])
      && multiset(removed) <= multiset(a) && multiset(a) - multiset(removed) + multiset(added) == multiset(b)
      && (forall l :: !(l in added && l in removed))
      && Subsequence(added, b) && Subsequence(removed, a)
  }

  lemma DiffIs(a: seq<string>, b: seq<string>, d: Diff)
    requires d.added == Prefixed("+ ", Surplus(b, multiset(a))) && d.removed == Prefixed("- ", Surplus(a, multiset(b)))
    ensures IsDiff(a, b, d)
  {
    hide Surplus, Subsequence;
    DiffIsExact(a, b);
    var added, removed := Surplus(b, multiset(a)), Surplus(a, multiset(b));
    assert |d.added| == |added| && |d.removed| == |removed|;
  }

  /** The diff is exact: taking the removed lines from the old version and adding the added ones gives
      the new version, no line is on both sides, both sides keep their order, and there is no difference
      exactly when one version is a rearrangement of the other. */
  lemma DiffIsExact(a: seq<string>, b: seq<string>)
    ensures var added, removed := Surplus(b, multiset(a)), Surplus(a, multiset(b));
            && multiset(removed) <= multiset(a)
            && multiset(a) - multiset(removed) + multiset(added) == multiset(b)
            && (forall l :: !(l in added && l in removed))
            && Subsequence(added, b) && Subsequence(removed, a)
            && (added == [] && removed == [] <==> multiset(a) == multiset(b))
  {
    hide Within, Subsequence;
    var added, removed := Surplus(b, multiset(a)), Surplus(a, multiset(b));
    WithinSpends(b, multiset(b) - multiset(a));
    WithinSpends(a, multiset(a) - multiset(b));
    WithinInOrder(b, multiset(b) - multiset(a));
    WithinInOrder(a, multiset(a) - multiset(b));
    DifferenceIsExact(multiset(a), multiset(b));
    SameEmptiness(added);
    SameEmptiness(removed);
  }

  lemma SameEmptiness(s: seq<string>)
    ensures s == [] <==> multiset(s) == multiset{}
    ensures forall l :: l in s <==> l in multiset(s)
  {
  }

  lemma DifferenceIsExact(a: multiset<string>, b: multiset<string>)
    ensures a - b <= a && a - (a - b) + (b - a) == b
    ensures forall l :: !(l in b - a && l in a - b)
    ensures b - a == multiset{} && a - b == multiset{} <==> a == b
  {
  }
}
