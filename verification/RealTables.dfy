/** The tables of the repository, checked against the conditions that the proofs rely on. */
module RealTables {
  import opened Text
  import opened Variant

  const PHRASES_TO_SIMPLIFIED: seq<Phrase> := [
    Phrase("法輪功", "法轮功"), Phrase("資料庫", "数据库"),
    Phrase("臺灣", "台湾"), Phrase("台灣", "台湾"), Phrase("後臺", "后台"), Phrase("頭髮", "头发"),
    Phrase("發佈", "发布"), Phrase("發展", "发展"), Phrase("乾淨", "干净"), Phrase("幹部", "干部"),
    Phrase("電腦", "电脑"), Phrase("網絡", "网络"), Phrase("軟體", "软件"), Phrase("軟件", "软件")
  ]

  function TradToSimp(c: char): char {
    match c
    case '輪' => '轮' case '臺' => '台' case '颱' => '台' case '灣' => '湾' case '門' => '门'
    case '國' => '国' case '會' => '会' case '習' => '习' case '體' => '体' case '網' => '网'
    case '裏' => '里' case '裡' => '里' case '發' => '发' case '髮' => '发' case '後' => '后'
    case '乾' => '干' case '幹' => '干' case '電' => '电' case '腦' => '脑' case '軟' => '软'
    case '件' => '件' case '資' => '资' case '庫' => '库' case '數' => '数' case '據' => '据'
    case '學' => '学' case '車' => '车' case '黨' => '党' case '產' => '产' case '龍' => '龙'
    case '馬' => '马' case '貓' => '猫' case '愛' => '爱' case '時' => '时' case '間' => '间'
    case '話' => '话' case '語' => '语' case '長' => '长' case '東' => '东' case '點' => '点'
    case '華' => '华' case '萬' => '万' case '與' => '与' case '專' => '专' case '業' => '业'
    case '優' => '优' case '開' => '开' case '關' => '关' case '標' => '标' case '準' => '准'
    case '測' => '测' case '試' => '试' case '險' => '险' case '級' => '级' case '審' => '审'
    case '義' => '义'
    case _ => c
  }

  function ToSimplified(): Tables {
    Tables(PHRASES_TO_SIMPLIFIED, TradToSimp)
  }

  lemma LowestCharsFixed(c: char)
    requires c < '據'
    ensures TradToSimp(TradToSimp(c)) == TradToSimp(c)
  {
  }

  lemma LowCharsFixed(c: char)
    requires '據' <= c < '發'
    ensures TradToSimp(TradToSimp(c)) == TradToSimp(c)
  {
  }

  lemma MiddleCharsFixed(c: char)
    requires '發' <= c < '裡'
    ensures TradToSimp(TradToSimp(c)) == TradToSimp(c)
  {
  }

  lemma HighCharsFixed(c: char)
    requires '裡' <= c < '開'
    ensures TradToSimp(TradToSimp(c)) == TradToSimp(c)
  {
  }

  lemma HighestCharsFixed(c: char)
    requires '開' <= c
    ensures TradToSimp(TradToSimp(c)) == TradToSimp(c)
  {
  }

  lemma CharsCJK(c: char)
    ensures TradToSimp(c) != c ==> IsCJK(c) && IsCJK(TradToSimp(c))
  {
  }

  /** Place i of the phrase's key holds a rune that the character map changes. */
  lemma PhraseWitness(p: Phrase, i: nat)
    requires |p.key| == |p.value| && i < |p.key| && TradToSimp(p.key[i]) != p.key[i]
    ensures PhraseOK(ToSimplified(), p)
  {
  }

  /** Runes that the character map changes, one of each key. */
  lemma ChangedChars(c: char)
    requires c in "輪庫灣髮臺發乾幹腦網軟資"
    ensures TradToSimp(c) != c
  {
  }

  lemma PhrasesOK(p: Phrase)
    requires p in PHRASES_TO_SIMPLIFIED
    ensures PhraseOK(ToSimplified(), p)
  {
    hide TradToSimp, PhraseOK;
    var i := if p.key in ["法輪功", "臺灣", "台灣", "頭髮", "電腦", "後臺"] then 1 else 0;
    assert |p.key| == |p.value| == if p.key in ["資料庫", "法輪功"] then 3 else 2;
    ChangedChars(p.key[i]);
    PhraseWitness(p, i);
  }

  /** The real tables meet the conditions under which simplification and normalisation are idempotent. */
  lemma RealTablesOK()
    ensures TablesOK(ToSimplified())
  {
    forall p | p in PHRASES_TO_SIMPLIFIED ensures PhraseOK(ToSimplified(), p) {
      PhrasesOK(p);
    }
    forall c ensures TradToSimp(TradToSimp(c)) == TradToSimp(c) && (TradToSimp(c) != c ==> IsCJK(c) && IsCJK(TradToSimp(c))) {
      if c < '據' { LowestCharsFixed(c); }
      else if c < '發' { LowCharsFixed(c); }
      else if c < '裡' { MiddleCharsFixed(c); }
      else if c < '開' { HighCharsFixed(c); }
      else { HighestCharsFixed(c); }
      CharsCJK(c);
    }
  }

  lemma KeyLength(i: nat)
    requires i < |PHRASES_TO_SIMPLIFIED|
    ensures |PHRASES_TO_SIMPLIFIED[i].key| == if i < 2 then 3 else 2
  {
  }

  /** Longest keys first, as written here, is one of the orders convertPhrases may use. */
  lemma RealOrder()
    ensures OrderOf(PHRASES_TO_SIMPLIFIED, ToSimplified())
  {
    var order := PHRASES_TO_SIMPLIFIED;
    forall i, j | 0 <= i < j < |order| ensures |order[i].key| >= |order[j].key| {
      KeyLength(i);
      KeyLength(j);
    }
  }
}
