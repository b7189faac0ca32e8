/** Pinyin input folding with its index map, and the bounded expansion of polyphonic text. */
module Pinyin {
  import opened Ordering
  import opened Text
  import opened Normalizer

  // ---------- NormalizePinyinWithMap ----------

  predicate IsZeroWidth(c: char) {
    c == '\U{200b}' || c == '\U{200c}' || c == '\U{200d}' || c == '\U{feff}'
  }

  predicate IsPinyinSeparator(c: char) {
    c in [' ', '\t', '\n', '\r', '-', '_', '.', '\'', '`', '·', '/', '\\']
  }

  predicate IsToneDigit(c: char) {
    '1' <= c <= '5'
  }

  /** The vowel under a tone mark, or c itself. */
  function StripTone(c: char): char {
    match c
    case 'ā' | 'á' | 'ǎ' | 'à' | 'Ā' | 'Á' | 'Ǎ' | 'À' => 'a'
    case 'ē' | 'é' | 'ě' | 'è' | 'Ē' | 'É' | 'Ě' | 'È' => 'e'
    case 'ī' | 'í' | 'ǐ' | 'ì' | 'Ī' | 'Í' | 'Ǐ' | 'Ì' => 'i'
    case 'ō' | 'ó' | 'ǒ' | 'ò' | 'Ō' | 'Ó' | 'Ǒ' | 'Ò' => 'o'
    case 'ū' | 'ú' | 'ǔ' | 'ù' | 'Ū' | 'Ú' | 'Ǔ' | 'Ù' => 'u'
    case 'ǖ' | 'ǘ' | 'ǚ' | 'ǜ' | 'ü' | 'Ü' | 'Ǖ' | 'Ǘ' | 'Ǚ' | 'Ǜ' => 'v'
    case _ => c
  }

  function FoldPinyinRune(c: char): char {
    if StripTone(c) != c then StripTone(c)
    else if c == IDEOGRAPHIC_SPACE then ' '
    else if IsFullWidth(c) then (c as int - 0xFEE0) as char
    else c
  }

  /** unicode.IsLetter or unicode.IsDigit, a library table, is the parameter word. */
  predicate Skipped(word: char -> bool, c: char) {
    IsZeroWidth(c) || IsPinyinSeparator(c) || IsToneDigit(c) || !word(FoldPinyinRune(c))
  }

  datatype TextMap = TextMap(text: string, indexMap: seq<nat>)

  function PinyinRun(u: Unicode, word: char -> bool, s: string, n: nat): TextMap
    requires n <= |s|
  {
    if n == 0 then TextMap([], [])
    else
      var m := PinyinRun(u, word, s, n - 1);
      if Skipped(word, s[n - 1]) then m
      else TextMap(m.text + [u.lower(FoldPinyinRune(s[n - 1]))], m.indexMap + [n - 1])
  }

  function PinyinMap(u: Unicode, word: char -> bool, s: string): TextMap {
    PinyinRun(u, word, s, |s|)
  }

  method NormalizePinyinWithMap(u: Unicode, word: char -> bool, s: string) returns (m: TextMap)
    ensures m == PinyinMap(u, word, s)
  {
    hide StripTone;
    var out: string, idx: seq<nat> := [], [];
    for i := 0 to |s|
      invariant TextMap(out, idx) == PinyinRun(u, word, s, i)
    {
      var r := s[i];
      if IsZeroWidth(r) || IsPinyinSeparator(r) || IsToneDigit(r) {
        continue;
      }
      var x := FoldPinyinRune(r);
      if word(x) {
        out := out + [u.lower(x)];
        idx := idx + [i];
      }
    }
    m := TextMap(out, idx);
  }

  /** The index map lists exactly the positions that are not skipped, in order, and the text is what
      stands there, folded. */
  lemma {:induction false} PinyinRunMapped(u: Unicode, word: char -> bool, s: string, n: nat)
    requires n <= |s|
    ensures var m := PinyinRun(u, word, s, n);
            && |m.indexMap| == |m.text| && GoodMap(m.indexMap, n)
            && (forall k :: 0 <= k < |m.text| ==>
                              !Skipped(word, s[m.indexMap[k]]) && m.text[k] == u.lower(FoldPinyinRune(s[m.indexMap[k]])))
            && (forall i :: 0 <= i < n && !Skipped(word, s[i]) ==> i in m.indexMap)
  {
    hide StripTone, Skipped, FoldPinyinRune;
    if n > 0 {
      PinyinRunMapped(u, word, s, n - 1);
    }
  }

  /** Exactly these vowels lose their tone marks, in both cases, and u with two dots becomes v. */
  lemma TonesStripped(c: char)
    ensures StripTone(c) == 'a' <==> c in "aāáǎàĀÁǍÀ"
    ensures StripTone(c) == 'e' <==> c in "eēéěèĒÉĚÈ"
    ensures StripTone(c) == 'i' <==> c in "iīíǐìĪÍǏÌ"
    ensures StripTone(c) == 'o' <==> c in "oōóǒòŌÓǑÒ"
    ensures StripTone(c) == 'u' <==> c in "uūúǔùŪÚǓÙ"
    ensures StripTone(c) == 'v' <==> c in "vǖǘǚǜüÜǕǗǙǛ"
    ensures StripTone(c) in "aeiouv" || StripTone(c) == c
  {
    hide StripTone;
    TonesOfAE(c);
    TonesOfIO(c);
    TonesOfU(c);
    TonesOfV(c);
    TonesOnly(c);
  }

  lemma TonesOnly(c: char)
    ensures StripTone(c) in "aeiouv" || StripTone(c) == c
  {
  }

  lemma TonesOfAE(c: char)
    ensures StripTone(c) == 'a' <==> c in "aāáǎàĀÁǍÀ"
    ensures StripTone(c) == 'e' <==> c in "eēéěèĒÉĚÈ"
  {
  }

  lemma TonesOfIO(c: char)
    ensures StripTone(c) == 'i' <==> c in "iīíǐìĪÍǏÌ"
    ensures StripTone(c) == 'o' <==> c in "oōóǒòŌÓǑÒ"
  {
  }

  lemma TonesOfU(c: char)
    ensures StripTone(c) == 'u' <==> c in "uūúǔùŪÚǓÙ"
  {
  }

  lemma TonesOfV(c: char)
    ensures StripTone(c) == 'v' <==> c in "vǖǘǚǜüÜǕǗǙǛ"
  {
  }

  lemma {:induction false} PinyinAppend(u: Unicode, word: char -> bool, a: string, b: string, n: nat)
    requires n <= |b|
    ensures PinyinRun(u, word, a + b, |a| + n).text == PinyinMap(u, word, a).text + PinyinRun(u, word, b, n).text
  {
    hide Skipped, FoldPinyinRune;
    if n == 0 {
      PinyinOfPrefix(u, word, a, b, |a|);
    } else {
      PinyinAppend(u, word, a, b, n - 1);
      assert (a + b)[|a| + n - 1] == b[n - 1];
    }
  }

  lemma {:induction false} PinyinOfPrefix(u: Unicode, word: char -> bool, a: string, b: string, n: nat)
    requires n <= |a|
    ensures PinyinRun(u, word, a + b, n).text == PinyinRun(u, word, a, n).text
  {
    hide Skipped, FoldPinyinRune;
    if n > 0 {
      PinyinOfPrefix(u, word, a, b, n - 1);
      assert (a + b)[n - 1] == a[n - 1];
    }
  }

  /** However pinyin is spaced, hyphenated, quoted, or numbered by tones, it is folded to the same text. */
  lemma SeparatorsDoNotMatter(u: Unicode, word: char -> bool, a: string, c: char, b: string)
    requires c in " \t\n\r-_.'`·/\\12345\U{200b}\U{200c}\U{200d}\U{feff}"
    ensures PinyinMap(u, word, a + [c] + b).text == PinyinMap(u, word, a + b).text
  {
    hide Skipped, PinyinRun;
    PinyinAppend(u, word, a, b, |b|);
    PinyinAppend(u, word, a + [c], b, |b|);
    PinyinAppend(u, word, a, [c], 1);
    SeparatorIsSkipped(u, word, c);
  }

  lemma SeparatorIsSkipped(u: Unicode, word: char -> bool, c: char)
    requires c in " \t\n\r-_.'`·/\\12345\U{200b}\U{200c}\U{200d}\U{feff}"
    ensures PinyinRun(u, word, [c], 1).text == []
  {
    hide FoldPinyinRune;
    assert Skipped(word, c);
    assert PinyinRun(u, word, [c], 0).text == [];
  }

  /** What the library tables must give for folded pinyin to stay as it is. */
  ghost predicate PinyinLikeGo(u: Unicode, word: char -> bool) {
    && LikeGo(u)
    && (forall c :: word(c) ==> word(u.lower(c)))
    && (forall c :: StripTone(u.lower(c)) != u.lower(c) ==> StripTone(c) != c)
    && (forall c :: IsToneDigit(u.lower(c)) <==> IsToneDigit(c))
    && (forall c :: IsToneDigit(c) ==> word(c))
    && (forall c :: word(c) ==> !IsZeroWidth(c) && !IsPinyinSeparator(c) && c != IDEOGRAPHIC_SPACE)
  }

  function AsciiWord(): char -> bool {
    c => 'a' <= c <= 'z' || 'A' <= c <= 'Z' || '0' <= c <= '9'
  }

  /** The conditions can be met: by ASCII letters and digits. */
  lemma AsciiPinyinLikeGo()
    ensures PinyinLikeGo(Ascii(), AsciiWord())
  {
    hide StripTone, LikeGo, Ascii, AsciiWord, IsToneDigit, IsZeroWidth, IsPinyinSeparator;
    AsciiIsLikeGo();
    var u, word := Ascii(), AsciiWord();
    forall c
      ensures word(c) ==> word(u.lower(c)) && !IsZeroWidth(c) && !IsPinyinSeparator(c) && c != IDEOGRAPHIC_SPACE
      ensures StripTone(u.lower(c)) != u.lower(c) ==> StripTone(c) != c
      ensures IsToneDigit(u.lower(c)) <==> IsToneDigit(c)
      ensures IsToneDigit(c) ==> word(c)
    {
      AsciiCharacter(c);
    }
  }

  lemma AsciiCharacter(c: char)
    ensures var u, word := Ascii(), AsciiWord();
            && (word(c) ==> word(u.lower(c)) && !IsZeroWidth(c) && !IsPinyinSeparator(c) && c != IDEOGRAPHIC_SPACE)
            && (StripTone(u.lower(c)) != u.lower(c) ==> StripTone(c) != c)
            && (IsToneDigit(u.lower(c)) <==> IsToneDigit(c))
            && (IsToneDigit(c) ==> word(c))
  {
    hide StripTone;
    ToneRange(c);
    ToneRange(Ascii().lower(c));
  }

  /** Pinyin input, with the hyphen skipped. */
  lemma SkippedHyphen()
    ensures PinyinMap(Ascii(), AsciiWord(), "a-b") == TextMap("ab", [0, 2])
  {
    hide Skipped, FoldPinyinRune, Ascii, AsciiWord;
    KeptLetters();
    var u, w, s := Ascii(), AsciiWord(), "a-b";
    assert PinyinRun(u, w, s, 0) == TextMap([], []);
    assert PinyinRun(u, w, s, 1) == TextMap("a", [0]);
    assert PinyinRun(u, w, s, 2) == TextMap("a", [0]);
  }

  lemma KeptLetters()
    ensures Skipped(AsciiWord(), '-')
    ensures forall c :: c in "ab" ==> !Skipped(AsciiWord(), c) && Ascii().lower(FoldPinyinRune(c)) == c
  {
    hide StripTone;
    ToneRange('a');
    ToneRange('b');
  }

  predicate IsFullWidthTone(c: char) {
    0xFF11 <= c as int <= 0xFF15
  }

  /** A kept character stays as it is on a second pass, unless it was a full-width tone digit. */
  lemma KeptAgain(u: Unicode, word: char -> bool, c: char)
    requires PinyinLikeGo(u, word) && !Skipped(word, c)
    ensures var x := u.lower(FoldPinyinRune(c));
            && (IsToneDigit(x) <==> IsFullWidthTone(c))
            && (Skipped(word, x) <==> IsFullWidthTone(c))
            && (!Skipped(word, x) ==> u.lower(FoldPinyinRune(x)) == x)
  {
    var f := FoldPinyinRune(c);
    var x := u.lower(f);
    StripToneResult(c);
    StripToneResult(f);
    StripToneResult(x);
    hide StripTone;
    assert word(f) && word(x) && u.lower(x) == x;
    assert !IsFullWidth(f) && f != IDEOGRAPHIC_SPACE;
    assert !IsFullWidth(x) && StripTone(f) == f && StripTone(x) == x;
    assert FoldPinyinRune(x) == x;
  }

  lemma ToneRange(c: char)
    ensures StripTone(c) != c ==> 0xC0 <= c as int <= 0x1DC
  {
  }

  lemma ToneVowel(c: char)
    ensures StripTone(c) != c ==> StripTone(c) in ['a', 'e', 'i', 'o', 'u', 'v']
  {
  }

  lemma StripToneResult(c: char)
    ensures StripTone(c) != c ==> StripTone(c) in ['a', 'e', 'i', 'o', 'u', 'v'] && !IsFullWidth(c) && c != IDEOGRAPHIC_SPACE && !IsFullWidthTone(c)
    ensures StripTone(StripTone(c)) == StripTone(c)
    ensures IsFullWidth(c) ==> StripTone((c as int - 0xFEE0) as char) == (c as int - 0xFEE0) as char
  {
    hide StripTone;
    ToneRange(c);
    ToneVowel(c);
    ToneRange(StripTone(c));
    if IsFullWidth(c) {
      ToneRange((c as int - 0xFEE0) as char);
    }
  }

  lemma {:induction false} NoTonesRunAgain(u: Unicode, word: char -> bool, s: string, n: nat)
    requires n <= |s|
    requires forall i :: 0 <= i < n ==> !Skipped(word, s[i]) && u.lower(FoldPinyinRune(s[i])) == s[i]
    ensures PinyinRun(u, word, s, n).text == s[..n]
  {
    hide Skipped, FoldPinyinRune;
    if n > 0 {
      NoTonesRunAgain(u, word, s, n - 1);
      assert s[..n] == s[..n - 1] + [s[n - 1]];
    }
  }

  lemma {:induction false} SkipShortens(u: Unicode, word: char -> bool, s: string, n: nat, i: nat)
    requires i < n <= |s| && Skipped(word, s[i])
    ensures |PinyinRun(u, word, s, n).text| < n
  {
    hide Skipped, FoldPinyinRune;
    if n - 1 > i {
      SkipShortens(u, word, s, n - 1, i);
    } else {
      RunLength(u, word, s, n - 1);
    }
  }

  lemma {:induction false} RunLength(u: Unicode, word: char -> bool, s: string, n: nat)
    requires n <= |s|
    ensures |PinyinRun(u, word, s, n).text| <= n
  {
    hide Skipped, FoldPinyinRune;
    if n > 0 { RunLength(u, word, s, n - 1); }
  }

  /** Folding pinyin input twice is folding it once if and only if the input holds none of the
      full-width digits 1 to 5: those come out as tone digits, which a second pass drops. */
  lemma PinyinIdempotentIff(u: Unicode, word: char -> bool, s: string)
    requires PinyinLikeGo(u, word)
    ensures var once := PinyinMap(u, word, s).text;
            PinyinMap(u, word, once).text == once <==> forall i :: 0 <= i < |s| ==> !IsFullWidthTone(s[i])
  {
    hide StripTone, PinyinLikeGo, IsFullWidthTone;
    var m := PinyinMap(u, word, s);
    PinyinRunMapped(u, word, s, |s|);
    forall k | 0 <= k < |m.text|
      ensures Skipped(word, m.text[k]) <==> IsFullWidthTone(s[m.indexMap[k]])
      ensures !Skipped(word, m.text[k]) ==> u.lower(FoldPinyinRune(m.text[k])) == m.text[k]
    {
      KeptAgain(u, word, s[m.indexMap[k]]);
    }
    if i :| 0 <= i < |s| && IsFullWidthTone(s[i]) {
      FullWidthToneIsKept(u, word, s[i]);
      var k :| 0 <= k < |m.indexMap| && m.indexMap[k] == i;
      SkipShortens(u, word, m.text, |m.text|, k);
    } else {
      NoTonesRunAgain(u, word, m.text, |m.text|);
      assert m.text[..|m.text|] == m.text;
    }
  }

  lemma FullWidthToneIsKept(u: Unicode, word: char -> bool, c: char)
    requires PinyinLikeGo(u, word) && IsFullWidthTone(c)
    ensures !Skipped(word, c)
  {
    StripToneResult(c);
    hide StripTone;
    assert IsToneDigit(FoldPinyinRune(c));
  }

  // ---------- PinyinForms ----------

  /** The readings of each character: the table's, or the lower-cased character itself; none for a CJK
      character the table does not have. */
  datatype Readings = Readings(known: map<char, seq<string>>)

  function ReadsOf(u: Unicode, t: Readings, c: char): seq<string> {
    if c in t.known then t.known[c] else [[u.lower(c)]]
  }

  /** Every entry of the table has a reading. */
  ghost predicate ReadingsOK(t: Readings) {
    forall c :: c in t.known ==> t.known[c] != []
  }

  type Parts = seq<string>

  /** Each form followed by each reading, form by form. */
  function Extend(forms: seq<Parts>, options: seq<string>): seq<Parts> {
    if forms == [] then [] else ExtendOne(forms[0], options) + Extend(forms[1..], options)
  }

  function ExtendOne(form: Parts, options: seq<string>): (r: seq<Parts>)
    ensures |r| == |options| && forall i :: 0 <= i < |options| ==> r[i] == form + [options[i]]
  {
    seq(|options|, i requires 0 <= i < |options| => form + [options[i]])
  }

  /** The lexicographic product of the readings of the first n characters. */
  function Product(u: Unicode, t: Readings, s: string, n: nat): seq<Parts>
    requires n <= |s|
  {
    if n == 0 then [[]] else Extend(Product(u, t, s, n - 1), ReadsOf(u, t, s[n - 1]))
  }

  function ProductSize(u: Unicode, t: Readings, s: string, n: nat): nat
    requires n <= |s|
  {
    if n == 0 then 1 else ProductSize(u, t, s, n - 1) * |ReadsOf(u, t, s[n - 1])|
  }

  predicate Polyphonic(u: Unicode, t: Readings, s: string, n: nat)
    requires n <= |s|
  {
    n > 0 && (Polyphonic(u, t, s, n - 1) || |ReadsOf(u, t, s[n - 1])| > 1)
  }

  function Take<T>(s: seq<T>, n: nat): seq<T> {
    if |s| <= n then s else s[..n]
  }

  datatype Form = Form(text: string, polyphonic: bool)

  predicate FormLess(a: Form, b: Form) {
    StrLess(a.text, b.text)
  }

  function Join(parts: Parts): string {
    if parts == [] then [] else parts[0] + Join(parts[1..])
  }

  function ToForms(forms: seq<Parts>, poly: bool): (r: seq<Form>)
    ensures |r| == |forms| && forall i :: 0 <= i < |forms| ==> r[i] == Form(Join(forms[i]), poly)
  {
    seq(|forms|, i requires 0 <= i < |forms| => Form(Join(forms[i]), poly))
  }

  /** The two loops over forms and readings, which stop as soon as max forms are there. */
  method ExtendBounded(forms: seq<Parts>, options: seq<string>, max: nat) returns (next: seq<Parts>)
    requires max > 0
    ensures next == Take(Extend(forms, options), max)
  {
    hide Extend;
    next := [];
    ghost var all := Extend(forms, options);
    ExtendEmpty(options);
    for i := 0 to |forms|
      invariant next == Extend(forms[..i], options) && |next| < max
    {
      ExtendSplit(forms, i, options);
      for j := 0 to |options|
        invariant next == Extend(forms[..i], options) + ExtendOne(forms[i], options)[..j] && |next| < max
      {
        next := next + [forms[i] + [options[j]]];
        if |next| >= max {
          assert next == all[..max];
          return;
        }
      }
    }
    assert forms[..|forms|] == forms;
  }

  lemma ExtendEmpty(options: seq<string>)
    ensures Extend([], options) == []
  {
  }

  lemma ExtendCons(form: Parts, rest: seq<Parts>, options: seq<string>)
    ensures Extend([form] + rest, options) == ExtendOne(form, options) + Extend(rest, options)
  {
  }

  lemma {:induction false} ExtendAppend(a: seq<Parts>, b: seq<Parts>, options: seq<string>)
    ensures Extend(a + b, options) == Extend(a, options) + Extend(b, options)
  {
    hide Extend, ExtendOne;
    if a == [] {
      assert a + b == b;
      ExtendEmpty(options);
    } else {
      assert a == [a[0]] + a[1..];
      ExtendCons(a[0], a[1..], options);
      ExtendAppend(a[1..], b, options);
      assert a + b == [a[0]] + (a[1..] + b);
      ExtendCons(a[0], a[1..] + b, options);
    }
  }

  lemma ExtendSplit(forms: seq<Parts>, i: nat, options: seq<string>)
    requires i < |forms|
    ensures Extend(forms[..i + 1], options) == Extend(forms[..i], options) + ExtendOne(forms[i], options)
    ensures Extend(forms[..i + 1], options) <= Extend(forms, options)
  {
    assert forms[..i + 1] == forms[..i] + [forms[i]];
    ExtendAppend(forms[..i], [forms[i]], options);
    assert Extend([forms[i]], options) == ExtendOne(forms[i], options) + Extend([], options);
    assert forms == forms[..i + 1] + forms[i + 1..];
    ExtendAppend(forms[..i + 1], forms[i + 1..], options);
  }

  lemma {:induction false} ExtendLength(forms: seq<Parts>, options: seq<string>)
    ensures |Extend(forms, options)| == |forms| * |options|
  {
    if forms != [] {
      ExtendLength(forms[1..], options);
      calc {
        |Extend(forms, options)|;
        |options| + |forms[1..]| * |options|;
        (1 + |forms[1..]|) * |options|;
        |forms| * |options|;
      }
    }
  }

  /** Cutting the forms to max first loses nothing of the first max extensions. */
  lemma ExtendTake(forms: seq<Parts>, options: seq<string>, max: nat)
    requires options != []
    ensures Take(Extend(Take(forms, max), options), max) == Take(Extend(forms, options), max)
  {
    hide Extend;
    if |forms| > max {
      var a, b := forms[..max], forms[max..];
      assert forms == a + b;
      ExtendAppend(a, b, options);
      ExtendLength(a, options);
      NotLess(max, |options|);
      TakeFront(Extend(a, options), Extend(b, options), max);
    }
  }

  lemma NotLess(m: nat, n: nat)
    requires n > 0
    ensures m * n >= m
  {
    assert m * n == m + m * (n - 1);
  }

  lemma TakeFront(a: seq<Parts>, b: seq<Parts>, n: nat)
    requires |a| >= n
    ensures Take(a + b, n) == Take(a, n)
  {
    assert (a + b)[..n] == a[..n];
  }

  /** The expansion when no phrase has an entry: None for a CJK character without readings. */
  datatype Expansion = NoReading | Forms(forms: seq<Form>)

  method ExpandForms(u: Unicode, t: Readings, s: string, limit: int) returns (r: Expansion)
    requires ReadingsOK(t)
    ensures r == NoReading <==> exists i :: 0 <= i < |s| && IsCJK(s[i]) && s[i] !in t.known
    ensures r != NoReading ==>
              r.forms == StableSort(FormLess, ToForms(Take(Product(u, t, s, |s|), if limit <= 0 then 8 else limit),
                                                      Polyphonic(u, t, s, |s|)))
    ensures r != NoReading ==> forall i, j :: 0 <= i < j < |r.forms| ==> !StrLess(r.forms[j].text, r.forms[i].text)
  {
    var max: nat := if limit <= 0 then 8 else limit;
    var forms: seq<Parts>, poly := [[]], false;
    for i := 0 to |s|
      invariant forall j :: 0 <= j < i ==> s[j] in t.known || !IsCJK(s[j])
      invariant forms == Take(Product(u, t, s, i), max)
      invariant poly == Polyphonic(u, t, s, i)
    {
      if s[i] !in t.known && IsCJK(s[i]) {
        return NoReading;
      }
      var options := ReadsOf(u, t, s[i]);
      ExtendTake(Product(u, t, s, i), options, max);
      forms := ExtendBounded(forms, options, max);
      poly := poly || |options| > 1;
    }
    r := Forms(StableSort(FormLess, ToForms(forms, poly)));
    FormsSorted(ToForms(forms, poly));
  }

  /** Sorting puts the forms in the order of their texts, and keeps them all. */
  lemma FormsSorted(forms: seq<Form>)
    ensures var s := StableSort(FormLess, forms);
            && (forall i, j :: 0 <= i < j < |s| ==> !StrLess(s[j].text, s[i].text))
            && multiset(s) == multiset(forms)
  {
    hide StrLess, StableSort;
    StrLessIsStrictTotal();
    StableSortCorrect(FormLess, forms);
  }

  /** PinyinForms: a phrase entry, of the text or of its simplified form, is the only form; otherwise
      the text is expanded. */
  method PinyinForms(u: Unicode, t: Readings, phrases: map<string, Parts>, s: string, simplified: string, limit: int)
    returns (r: Expansion)
    requires ReadingsOK(t)
    ensures s in phrases ==> r == Forms([Form(Join(phrases[s]), false)])
    ensures s !in phrases && simplified in phrases ==> r == Forms([Form(Join(phrases[simplified]), false)])
    ensures s !in phrases && simplified !in phrases ==>
              && (r == NoReading <==> exists i :: 0 <= i < |s| && IsCJK(s[i]) && s[i] !in t.known)
              && (r != NoReading ==>
                    r.forms == StableSort(FormLess, ToForms(Take(Product(u, t, s, |s|), if limit <= 0 then 8 else limit),
                                                            Polyphonic(u, t, s, |s|))))
  {
    if s in phrases {
      return Forms([Form(Join(phrases[s]), false)]);
    }
    if simplified in phrases {
      return Forms([Form(Join(phrases[simplified]), false)]);
    }
    r := ExpandForms(u, t, s, limit);
  }

  lemma {:induction false} ProductLength(u: Unicode, t: Readings, s: string, n: nat)
    requires n <= |s|
    ensures |Product(u, t, s, n)| == ProductSize(u, t, s, n)
  {
    if n > 0 {
      ProductLength(u, t, s, n - 1);
      ExtendLength(Product(u, t, s, n - 1), ReadsOf(u, t, s[n - 1]));
    }
  }

  /** A choice of one reading for each of the first n characters. */
  ghost predicate Choice(u: Unicode, t: Readings, s: string, n: nat, parts: Parts)
    requires n <= |s|
  {
    |parts| == n && forall i :: 0 <= i < n ==> if s[i] in t.known then parts[i] in t.known[s[i]] else parts[i] == [u.lower(s[i])]
  }

  lemma {:induction false} ExtendMember(forms: seq<Parts>, options: seq<string>, p: Parts)
    ensures p in Extend(forms, options) <==> p != [] && p[..|p| - 1] in forms && p[|p| - 1] in options
  {
    if forms != [] {
      ExtendMember(forms[1..], options, p);
      assert p in ExtendOne(forms[0], options) <==> p != [] && p[..|p| - 1] == forms[0] && p[|p| - 1] in options by {
        if p != [] && p[..|p| - 1] == forms[0] && p[|p| - 1] in options {
          var i :| 0 <= i < |options| && options[i] == p[|p| - 1];
          assert ExtendOne(forms[0], options)[i] == p;
        }
      }
    }
  }

  /** The product holds exactly the choices of readings. */
  lemma {:induction false} ProductIsAllChoices(u: Unicode, t: Readings, s: string, n: nat, p: Parts)
    requires n <= |s|
    ensures p in Product(u, t, s, n) <==> Choice(u, t, s, n, p)
  {
    hide Extend;
    if n > 0 {
      ExtendMember(Product(u, t, s, n - 1), ReadsOf(u, t, s[n - 1]), p);
      if p != [] {
        ProductIsAllChoices(u, t, s, n - 1, p[..|p| - 1]);
      }
    }
  }

  /** The parts of the product come in lexicographic order: all extensions of the first form, then all of
      the next. */
  lemma {:induction false} ExtendAt(forms: seq<Parts>, options: seq<string>, i: nat, j: nat)
    requires i < |forms| && j < |options|
    ensures i * |options| + j < |Extend(forms, options)|
    ensures Extend(forms, options)[i * |options| + j] == forms[i] + [options[j]]
  {
    if i > 0 {
      ExtendAt(forms[1..], options, i - 1, j);
      assert (i - 1) * |options| + j + |options| == i * |options| + j;
    }
  }

  /** A form's text is its parts, one after the other. */
  lemma {:induction false} JoinAppend(a: Parts, b: Parts)
    ensures Join(a + b) == Join(a) + Join(b)
  {
    hide Join;
    JoinOne("");
    if a == [] {
      assert a + b == b;
    } else {
      JoinAppend(a[1..], b);
      assert a + b == [a[0]] + (a[1..] + b) && a == [a[0]] + a[1..];
      JoinCons(a[0], a[1..] + b);
      JoinCons(a[0], a[1..]);
    }
  }

  lemma JoinCons(part: string, rest: Parts)
    ensures Join([part] + rest) == part + Join(rest)
  {
  }

  lemma JoinOne(part: string)
    ensures Join([part]) == part && Join([]) == ""
  {
  }

  /** A text is polyphonic if one of its characters has several readings. */
  lemma {:induction false} PolyphonicIff(u: Unicode, t: Readings, s: string, n: nat)
    requires n <= |s|
    ensures Polyphonic(u, t, s, n) <==> exists i :: 0 <= i < n && s[i] in t.known && |t.known[s[i]]| > 1
  {
    if n > 0 {
      PolyphonicIff(u, t, s, n - 1);
    }
  }

  /** The expansion never exceeds the limit, and is complete whenever the product fits. */
  lemma ExpansionIsBounded(u: Unicode, t: Readings, s: string, max: nat)
    ensures var forms := Take(Product(u, t, s, |s|), max);
            && |forms| == (if ProductSize(u, t, s, |s|) <= max then ProductSize(u, t, s, |s|) else max)
            && (ProductSize(u, t, s, |s|) <= max ==> forall p :: p in forms <==> Choice(u, t, s, |s|, p))
  {
    ProductLength(u, t, s, |s|);
    forall p ensures p in Product(u, t, s, |s|) <==> Choice(u, t, s, |s|, p) {
      ProductIsAllChoices(u, t, s, |s|, p);
    }
  }
}
