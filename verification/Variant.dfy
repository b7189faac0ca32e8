/** Traditional to simplified conversion: phrase replacement, then a character map.

    Simplify is what normalisation starts with. Its tables are a parameter, bound only by
    TablesOK; RealTables checks that the real tables meet it. */
module Variant {
  import opened Text

  datatype Phrase = Phrase(key: string, value: string)

  /** chars is the identity off the character map. */
  datatype Tables = Tables(phrases: seq<Phrase>, chars: char -> char)

  predicate Changes(t: Tables, c: char) {
    t.chars(c) != c
  }

  ghost predicate PhraseOK(t: Tables, p: Phrase) {
    |p.key| == |p.value| > 0 && exists i :: 0 <= i < |p.key| && Changes(t, p.key[i])
  }

  ghost predicate TablesOK(t: Tables) {
    && (forall p :: p in t.phrases ==> PhraseOK(t, p))
    && (forall c :: !Changes(t, t.chars(c)))
    && (forall c :: Changes(t, c) ==> IsCJK(c) && IsCJK(t.chars(c)))
  }

  /** An order in which the phrases may be applied: the keys are sorted by length, but the map they
      come from is iterated in any order and the sort is not stable. */
  ghost predicate OrderOf(order: seq<Phrase>, t: Tables) {
    && multiset(order) == multiset(t.phrases)
    && forall i, j :: 0 <= i < j < |order| ==> |order[i].key| >= |order[j].key|
  }

  /** strings.ReplaceAll: leftmost occurrences, not overlapping. */
  function ReplaceAll(s: string, p: Phrase): string
    requires p.key != []
  {
    if |s| < |p.key| then s
    else if s[..|p.key|] == p.key then p.value + ReplaceAll(s[|p.key|..], p)
    else [s[0]] + ReplaceAll(s[1..], p)
  }

  function ReplacePhrases(s: string, order: seq<Phrase>): string
    requires forall p :: p in order ==> p.key != []
    decreases |order|
  {
    if order == [] then s else ReplacePhrases(ReplaceAll(s, order[0]), order[1..])
  }

  function MapChars(s: string, f: char -> char): (r: string)
    ensures |r| == |s| && forall i :: 0 <= i < |s| ==> r[i] == f(s[i])
  {
    seq(|s|, i requires 0 <= i < |s| => f(s[i]))
  }

  function Convert(s: string, order: seq<Phrase>, chars: char -> char): string
    requires forall p :: p in order ==> p.key != []
  {
    MapChars(ReplacePhrases(s, order), chars)
  }

  /** convertPhrases: all phrases in turn, then the runes rewritten in place. */
  method ConvertPhrases(s: string, order: seq<Phrase>, chars: char -> char) returns (r: string)
    requires forall p :: p in order ==> p.key != []
    ensures r == Convert(s, order, chars) && Converted(s, order, chars, r)
  {
    hide Converted;
    ConvertReplaces(s, order, chars);
    var t := s;
    for k := 0 to |order|
      invariant ReplacePhrases(t, order[k..]) == ReplacePhrases(s, order)
    {
      assert order[k..][1..] == order[k + 1..];
      t := ReplaceAll(t, order[k]);
    }
    var rs := new char[|t|](i requires 0 <= i < |t| => t[i]);
    for i := 0 to rs.Length
      invariant forall j :: 0 <= j < i ==> rs[j] == chars(t[j])
      invariant forall j :: i <= j < rs.Length ==> rs[j] == t[j]
    {
      rs[i] := chars(rs[i]);
    }
    r := rs[..];
  }

  // ---------- What is replaced ----------

  predicate OccursAt(key: string, s: string, i: nat) {
    i + |key| <= |s| && s[i..i + |key|] == key
  }

  function Joined(parts: seq<string>, sep: string): string {
    if parts == [] then [] else if |parts| == 1 then parts[0] else parts[0] + sep + Joined(parts[1..], sep)
  }

  ghost predicate Free(key: string, s: string) {
    forall i: nat :: !OccursAt(key, s, i)
  }

  /** In the part followed by the key, no occurrence starts before the end of the part. */
  ghost predicate NoneEarlier(part: string, key: string) {
    forall i: nat :: i < |part| ==> !OccursAt(key, part + key, i)
  }

  /** s is cut at the occurrences of the key, from the left: each is the first in what is left. */
  ghost predicate CutAt(s: string, key: string, parts: seq<string>) {
    && parts != [] && s == Joined(parts, key) && Free(key, parts[|parts| - 1])
    && forall k :: 0 <= k < |parts| - 1 ==> NoneEarlier(parts[k], key)
  }

  /** t is s with the key replaced by the value wherever s is cut at it. */
  ghost predicate Replaced(s: string, p: Phrase, t: string) {
    exists parts :: CutAt(s, p.key, parts) && t == Joined(parts, p.value)
  }

  lemma {:induction false} ReplaceAllCuts(s: string, p: Phrase) returns (parts: seq<string>)
    requires p.key != []
    ensures CutAt(s, p.key, parts) && ReplaceAll(s, p) == Joined(parts, p.value)
  {
    hide OccursAt, NoneEarlier;
    if |s| < |p.key| {
      parts := [s];
      TooShort(s, p.key);
    } else if s[..|p.key|] == p.key {
      var rest := ReplaceAllCuts(s[|p.key|..], p);
      parts := [""] + rest;
      CutBefore(s[|p.key|..], p.key, rest);
      assert s == p.key + s[|p.key|..];
      JoinedCons("", rest, p.value);
    } else {
      var rest := ReplaceAllCuts(s[1..], p);
      parts := [[s[0]] + rest[0]] + rest[1..];
      LongerFirst(s, p, rest);
    }
  }

  lemma TooShort(s: string, key: string)
    requires |s| < |key|
    ensures Free(key, s)
  {
  }

  lemma JoinedCons(h: string, t: seq<string>, sep: string)
    requires t != []
    ensures Joined([h] + t, sep) == h + sep + Joined(t, sep)
  {
    assert ([h] + t)[1..] == t;
  }

  lemma CutBefore(s: string, key: string, t: seq<string>)
    requires CutAt(s, key, t)
    ensures CutAt(key + s, key, [""] + t)
  {
    hide Free;
    JoinedCons("", t, key);
    assert "" + key + s == key + s;
    forall k | 0 <= k < |t| ensures NoneEarlier(([""] + t)[k], key) {
      assert k > 0 ==> ([""] + t)[k] == t[k - 1];
    }
  }

  /** A character that does not start an occurrence goes to the first part. */
  lemma LongerFirst(s: string, p: Phrase, t: seq<string>)
    requires p.key != [] && |s| >= |p.key| && s[..|p.key|] != p.key && CutAt(s[1..], p.key, t)
    ensures var parts := [[s[0]] + t[0]] + t[1..];
            CutAt(s, p.key, parts) && Joined(parts, p.value) == [s[0]] + Joined(t, p.value)
  {
    hide OccursAt, Free, NoneEarlier;
    JoinedLonger(s[0], t, p.key);
    JoinedLonger(s[0], t, p.value);
    assert s == [s[0]] + s[1..];
    if |t| > 1 {
      assert t == [t[0]] + t[1..];
      JoinedCons(t[0], t[1..], p.key);
      assert t[0] + p.key <= s[1..];
      NoneEarlierLonger(s, p.key, t[0]);
    } else {
      assert t == [t[0]];
      FreeLonger(s, p.key, t[0]);
    }
    forall k | 0 < k < |t| ensures ([[s[0]] + t[0]] + t[1..])[k] == t[k] {}
  }

  lemma JoinedLonger(c: char, t: seq<string>, sep: string)
    requires t != []
    ensures Joined([[c] + t[0]] + t[1..], sep) == [c] + Joined(t, sep)
  {
    if |t| == 1 {
      assert [[c] + t[0]] + t[1..] == [[c] + t[0]];
    } else {
      JoinedCons([c] + t[0], t[1..], sep);
      assert [c] + (t[0] + sep + Joined(t[1..], sep)) == [c] + t[0] + sep + Joined(t[1..], sep);
    }
  }

  lemma NoneEarlierLonger(s: string, key: string, part: string)
    requires key != [] && |s| >= |key| && s[..|key|] != key && part + key <= s[1..] && NoneEarlier(part, key)
    ensures NoneEarlier([s[0]] + part, key)
  {
    hide OccursAt;
    assert [s[0]] + part + key == [s[0]] + (part + key);
    NotAtStart(s, key, [s[0]] + (part + key));
    forall i: nat | i < |part| + 1 ensures !OccursAt(key, [s[0]] + part + key, i) {
      if i > 0 { Shifted(key, s[0], part + key, i); }
    }
  }

  lemma FreeLonger(s: string, key: string, part: string)
    requires key != [] && |s| >= |key| && s[..|key|] != key && part == s[1..] && Free(key, part)
    ensures Free(key, [s[0]] + part)
  {
    hide OccursAt;
    NotAtStart(s, key, [s[0]] + part);
    forall i: nat ensures !OccursAt(key, [s[0]] + part, i) {
      if i > 0 { Shifted(key, s[0], part, i); }
    }
  }

  lemma NotAtStart(s: string, key: string, w: string)
    requires |s| >= |key| && s[..|key|] != key && w <= s
    ensures !OccursAt(key, w, 0)
  {
    if |w| >= |key| {
      assert s[..|key|] == w[0..0 + |key|];
    }
  }

  lemma Shifted(key: string, c: char, w: string, i: nat)
    requires i > 0
    ensures OccursAt(key, [c] + w, i) <==> OccursAt(key, w, i - 1)
  {
    if i + |key| <= |w| + 1 {
      assert ([c] + w)[i..i + |key|] == w[i - 1..i - 1 + |key|];
    }
  }

  /** r is s after replacing the phrases one after the other, and then mapping each character. */
  ghost predicate Converted(s: string, order: seq<Phrase>, chars: char -> char, r: string) {
    exists steps: seq<string> :: ReplacedInTurn(s, order, steps) && IsMapped(steps[|order|], chars, r)
  }

  ghost predicate ReplacedInTurn(s: string, order: seq<Phrase>, steps: seq<string>) {
    && |steps| == |order| + 1 && steps[0] == s
    && forall k :: 0 <= k < |order| ==> Replaced(steps[k], order[k], steps[k + 1])
  }

  ghost predicate IsMapped(s: string, chars: char -> char, r: string) {
    |r| == |s| && forall i :: 0 <= i < |s| ==> r[i] == chars(s[i])
  }

  lemma {:induction false} ReplacedPhrases(s: string, order: seq<Phrase>) returns (steps: seq<string>)
    requires forall p :: p in order ==> p.key != []
    ensures ReplacedInTurn(s, order, steps) && steps[|order|] == ReplacePhrases(s, order)
    decreases |order|
  {
    hide Replaced;
    if order == [] {
      steps := [s];
    } else {
      var t := ReplaceAll(s, order[0]);
      var parts := ReplaceAllCuts(s, order[0]);
      CutsReplaced(s, order[0], t, parts);
      var rest := ReplacedPhrases(t, order[1..]);
      steps := [s] + rest;
      forall k | 0 <= k < |order| ensures Replaced(steps[k], order[k], steps[k + 1]) {
        assert k > 0 ==> order[k] == order[1..][k - 1];
      }
    }
  }

  lemma CutsReplaced(s: string, p: Phrase, t: string, parts: seq<string>)
    requires CutAt(s, p.key, parts) && t == Joined(parts, p.value)
    ensures Replaced(s, p, t)
  {
  }

  /** Every phrase is replaced wherever it occurs, in the order given, and then every character is mapped. */
  lemma ConvertReplaces(s: string, order: seq<Phrase>, chars: char -> char)
    requires forall p :: p in order ==> p.key != []
    ensures Converted(s, order, chars, Convert(s, order, chars))
  {
    hide Replaced;
    var steps := ReplacedPhrases(s, order);
    assert IsMapped(steps[|order|], chars, Convert(s, order, chars));
  }

  // ---------- Properties ----------

  lemma OrderOK(order: seq<Phrase>, t: Tables)
    requires TablesOK(t) && OrderOf(order, t)
    ensures forall p :: p in order ==> PhraseOK(t, p) && p.key != []
  {
    forall p | p in order ensures p in t.phrases {
      assert p in multiset(order);
    }
  }

  lemma {:induction false} ReplaceAllLength(s: string, p: Phrase)
    requires |p.key| == |p.value| > 0
    ensures |ReplaceAll(s, p)| == |s|
  {
    if |s| >= |p.key| {
      ReplaceAllLength(if s[..|p.key|] == p.key then s[|p.key|..] else s[1..], p);
    }
  }

  lemma {:induction false} ReplacePhrasesLength(s: string, order: seq<Phrase>)
    requires forall p :: p in order ==> |p.key| == |p.value| > 0
    ensures |ReplacePhrases(s, order)| == |s|
    decreases |order|
  {
    if order != [] {
      ReplaceAllLength(s, order[0]);
      ReplacePhrasesLength(ReplaceAll(s, order[0]), order[1..]);
    }
  }

  /** Positions survive: simplification keeps the number of code points. */
  lemma ConvertLength(s: string, order: seq<Phrase>, t: Tables)
    requires TablesOK(t) && OrderOf(order, t)
    ensures forall p :: p in order ==> p.key != []
    ensures |Convert(s, order, t.chars)| == |s|
  {
    OrderOK(order, t);
    ReplacePhrasesLength(s, order);
  }

  /** Text in which the character map changes nothing. */
  ghost predicate Plain(t: Tables, s: string) {
    forall c :: c in s ==> !Changes(t, c)
  }

  lemma {:induction false} ReplaceAllPlain(s: string, p: Phrase, t: Tables)
    requires PhraseOK(t, p) && Plain(t, s)
    ensures ReplaceAll(s, p) == s
  {
    if |s| >= |p.key| {
      var i :| 0 <= i < |p.key| && Changes(t, p.key[i]);
      assert s[..|p.key|][i] == s[i] && s[i] in s;
      ReplaceAllPlain(s[1..], p, t);
      assert s == [s[0]] + s[1..];
    }
  }

  lemma {:induction false} ReplacePhrasesPlain(s: string, order: seq<Phrase>, t: Tables)
    requires forall p :: p in order ==> p.key != [] && PhraseOK(t, p)
    requires Plain(t, s)
    ensures ReplacePhrases(s, order) == s
  {
    if order != [] {
      ReplaceAllPlain(s, order[0], t);
      ReplacePhrasesPlain(s, order[1..], t);
    }
  }

  /** Plain text is exactly what conversion leaves alone. */
  lemma ConvertFixpoint(s: string, order: seq<Phrase>, t: Tables)
    requires TablesOK(t) && OrderOf(order, t)
    ensures forall p :: p in order ==> p.key != []
    ensures Plain(t, s) <==> Convert(s, order, t.chars) == s
  {
    OrderOK(order, t);
    ConvertPlain(s, order, t);
    if Plain(t, s) {
      ReplacePhrasesPlain(s, order, t);
      assert MapChars(s, t.chars) == s by {
        forall i | 0 <= i < |s| ensures t.chars(s[i]) == s[i] { assert s[i] in s && !Changes(t, s[i]); }
      }
    }
  }

  lemma ConvertPlain(s: string, order: seq<Phrase>, t: Tables)
    requires TablesOK(t) && OrderOf(order, t)
    ensures forall p :: p in order ==> p.key != []
    ensures Plain(t, Convert(s, order, t.chars))
  {
    OrderOK(order, t);
    var r := ReplacePhrases(s, order);
    forall c | c in MapChars(r, t.chars) ensures !Changes(t, c) {
      var i :| 0 <= i < |r| && MapChars(r, t.chars)[i] == c;
      assert c == t.chars(r[i]);
    }
  }

  /** Simplifying twice is simplifying once, even if the two runs order the phrases differently. */
  lemma ConvertIdempotent(s: string, order: seq<Phrase>, order': seq<Phrase>, t: Tables)
    requires TablesOK(t) && OrderOf(order, t) && OrderOf(order', t)
    ensures forall p :: p in order ==> p.key != []
    ensures forall p :: p in order' ==> p.key != []
    ensures Convert(Convert(s, order, t.chars), order', t.chars) == Convert(s, order, t.chars)
  {
    ConvertPlain(s, order, t);
    ConvertFixpoint(Convert(s, order, t.chars), order', t);
  }
}
