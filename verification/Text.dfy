/** Code points and the two library functions on them that the text code calls. */
module Text {

  /** unicode.ToLower and unicode.IsSpace. Their tables are not modelled: everything is proved for
      any pair that meets LikeGo. */
  datatype Unicode = Unicode(lower: char -> char, space: char -> bool)

  predicate IsCJK(c: char) {
    0x4E00 <= c as int <= 0x9FFF || 0x3400 <= c as int <= 0x4DBF
  }

  /** Full-width forms of the printable ASCII characters. */
  predicate IsFullWidth(c: char) {
    0xFF01 <= c as int <= 0xFF5E
  }

  const NUL: char := 0 as char

  const IDEOGRAPHIC_SPACE: char := '\U{3000}'

  ghost predicate LikeGo(u: Unicode) {
    && (forall c :: u.lower(u.lower(c)) == u.lower(c))
    && (forall c :: IsCJK(c) ==> u.lower(c) == c && !u.space(c))
    && (forall c :: IsCJK(u.lower(c)) ==> IsCJK(c))
    && (forall c :: IsFullWidth(u.lower(c)) ==> IsFullWidth(c))
    && (forall c :: u.lower(c) == IDEOGRAPHIC_SPACE ==> c == IDEOGRAPHIC_SPACE)
    && (forall c :: u.space(u.lower(c)) == u.space(c))
    && u.lower(' ') == ' ' && u.space(' ') && u.space('\t') && u.space('\n')
  }

  /** The conditions can be met: ASCII case and spaces, and nothing else, do. */
  function Ascii(): Unicode {
    Unicode(c => if 'A' <= c <= 'Z' then (c as int + 32) as char else c,
            c => c == ' ' || 9 <= c as int <= 13)
  }

  lemma AsciiIsLikeGo()
    ensures LikeGo(Ascii())
  {
  }

  /** fold: the ideographic space and full-width forms to ASCII, then lower case. */
  function Fold(u: Unicode, c: char): char {
    if c == IDEOGRAPHIC_SPACE then ' '
    else if IsFullWidth(c) then u.lower((c as int - 0xFEE0) as char)
    else u.lower(c)
  }

  lemma FoldIdempotent(u: Unicode, c: char)
    requires LikeGo(u)
    ensures Fold(u, Fold(u, c)) == Fold(u, c)
    ensures IsCJK(c) ==> Fold(u, c) == c
    ensures IsCJK(Fold(u, c)) ==> Fold(u, c) == c
  {
  }

  /** A printable ASCII character and its full-width form are the same, and so are the two spaces. */
  lemma WidthIsFolded(u: Unicode, c: char)
    ensures '!' <= c <= '~' ==> Fold(u, (c as int + 0xFEE0) as char) == u.lower(c)
    ensures u.lower(' ') == ' ' ==> Fold(u, IDEOGRAPHIC_SPACE) == Fold(u, ' ')
    ensures !IsFullWidth(c) && c != IDEOGRAPHIC_SPACE ==> Fold(u, c) == u.lower(c)
  {
  }

  function FoldAll(u: Unicode, s: string): (r: string)
    ensures |r| == |s| && forall i :: 0 <= i < |s| ==> r[i] == Fold(u, s[i])
  {
    seq(|s|, i requires 0 <= i < |s| => Fold(u, s[i]))
  }

  // ---------- strings.TrimSpace and strings.ToLower ----------

  function TrimLeft(u: Unicode, s: string): string {
    if s != [] && u.space(s[0]) then TrimLeft(u, s[1..]) else s
  }

  function TrimRight(u: Unicode, s: string): string {
    if s != [] && u.space(s[|s| - 1]) then TrimRight(u, s[..|s| - 1]) else s
  }

  function Trim(u: Unicode, s: string): string {
    TrimRight(u, TrimLeft(u, s))
  }

  function Lower(u: Unicode, s: string): (r: string)
    ensures |r| == |s| && forall i :: 0 <= i < |s| ==> r[i] == u.lower(s[i])
  {
    seq(|s|, i requires 0 <= i < |s| => u.lower(s[i]))
  }

  ghost predicate Trimmed(u: Unicode, s: string) {
    s == [] || (!u.space(s[0]) && !u.space(s[|s| - 1]))
  }

  ghost predicate Spaces(u: Unicode, s: string) {
    forall i :: 0 <= i < |s| ==> u.space(s[i])
  }

  lemma {:induction false} TrimLeftResult(u: Unicode, s: string) returns (cut: string)
    ensures var r := TrimLeft(u, s); (r == [] || !u.space(r[0])) && s == cut + r && Spaces(u, cut)
  {
    cut := [];
    if s != [] && u.space(s[0]) {
      cut := TrimLeftResult(u, s[1..]);
      cut := [s[0]] + cut;
    }
  }

  lemma {:induction false} TrimRightResult(u: Unicode, s: string)
    ensures var r := TrimRight(u, s); r <= s && (r == [] || !u.space(r[|r| - 1])) && Spaces(u, s[|r|..])
  {
    if s != [] && u.space(s[|s| - 1]) {
      TrimRightResult(u, s[..|s| - 1]);
    }
  }

  lemma TrimResult(u: Unicode, s: string)
    ensures Trimmed(u, Trim(u, s))
    ensures Trimmed(u, s) ==> Trim(u, s) == s
  {
    var cut := TrimLeftResult(u, s);
    TrimRightResult(u, TrimLeft(u, s));
  }

  /** Trimming takes away spaces at both ends, and nothing else. */
  lemma TrimIsCore(u: Unicode, s: string) returns (front: string, back: string)
    ensures s == front + Trim(u, s) + back && Spaces(u, front) && Spaces(u, back) && Trimmed(u, Trim(u, s))
  {
    front := TrimLeftResult(u, s);
    TrimRightResult(u, TrimLeft(u, s));
    back := TrimLeft(u, s)[|Trim(u, s)|..];
    TrimResult(u, s);
  }

  /** Nothing is left exactly when there was nothing but spaces. */
  lemma TrimmedAwayIff(u: Unicode, s: string)
    ensures Trim(u, s) == "" <==> Spaces(u, s)
  {
    var front, back := TrimIsCore(u, s);
    if Trim(u, s) != "" {
      assert s[|front|] == Trim(u, s)[0];
    }
  }

  /** strings.ToLower(strings.TrimSpace(s)), as rule fields are cleaned. */
  function LowerTrim(u: Unicode, s: string): string {
    Lower(u, Trim(u, s))
  }

  lemma LowerTrimIdempotent(u: Unicode, s: string)
    requires LikeGo(u)
    ensures LowerTrim(u, LowerTrim(u, s)) == LowerTrim(u, s)
  {
    var t := Trim(u, s);
    TrimResult(u, s);
    TrimResult(u, Lower(u, t));
    assert Trimmed(u, Lower(u, t));
    assert Lower(u, Lower(u, t)) == Lower(u, t);
  }

  // ---------- Joined strings ----------

  /** The first separator tells where the parts are, if the first part has none. */
  lemma SplitSame(a: string, b: string, x: string, y: string, c: char)
    requires c !in a && c !in b && a + [c] + x == b + [c] + y
    ensures a == b && x == y
  {
    var s := a + [c] + x;
    assert s[|a|] == c && s[|b|] == c;
    assert forall k :: 0 <= k < |a| ==> s[k] == a[k];
    assert forall k :: 0 <= k < |b| ==> s[k] == b[k];
    assert a == s[..|a|] && b == s[..|b|] && x == s[|a| + 1..] && y == s[|b| + 1..];
  }

  /** The last separator tells where the parts are, if the last part has none. */
  lemma SplitSameLast(a: string, b: string, x: string, y: string, c: char)
    requires c !in x && c !in y && a + [c] + x == b + [c] + y
    ensures a == b && x == y
  {
    var s := a + [c] + x;
    assert s[|a|] == c && s[|b|] == c;
    assert forall k :: |a| < k < |s| ==> s[k] == x[k - |a| - 1];
    assert forall k :: |b| < k < |s| ==> s[k] == y[k - |b| - 1];
    assert a == s[..|a|] && b == s[..|b|] && x == s[|a| + 1..] && y == s[|b| + 1..];
  }
}
