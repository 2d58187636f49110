/** The static data of the game: the syllable table, the two display modes,
    the falling-kana record, and how a kana is created and moved. */
module KanaData {

  /** Canvas height in pixels; kana falling past HEIGHT + 50 have escaped. */
  const HEIGHT: int := 900
  const ESCAPE_LINE: int := HEIGHT + 50
  /** Every new kana starts 50 pixels above the top edge. */
  const SPAWN_Y: int := -50

  /** Which script a new kana is drawn in. */
  datatype Mode = Hiragana | Katakana

  function Flip(m: Mode): (r: Mode)
    ensures r != m
  {
    if m == Hiragana then Katakana else Hiragana
  }

  /** One row of the syllable table: the romanised reading and its two glyphs. */
  datatype KanaEntry = KanaEntry(romaji: string, hiragana: string, katakana: string)

  /** The syllable table, one constant per row of the gojūon chart. */
  const VOWELS: seq<KanaEntry> := [KanaEntry("a", "あ", "ア"), KanaEntry("i", "い", "イ"), KanaEntry("u", "う", "ウ"), KanaEntry("e", "え", "エ"), KanaEntry("o", "お", "オ")]
  const K_ROW: seq<KanaEntry> := [KanaEntry("ka", "か", "カ"), KanaEntry("ki", "き", "キ"), KanaEntry("ku", "く", "ク"), KanaEntry("ke", "け", "ケ"), KanaEntry("ko", "こ", "コ")]
  const S_ROW: seq<KanaEntry> := [KanaEntry("sa", "さ", "サ"), KanaEntry("shi", "し", "シ"), KanaEntry("su", "す", "ス"), KanaEntry("se", "せ", "セ"), KanaEntry("so", "そ", "ソ")]
  const T_ROW: seq<KanaEntry> := [KanaEntry("ta", "た", "タ"), KanaEntry("chi", "ち", "チ"), KanaEntry("tsu", "つ", "ツ"), KanaEntry("te", "て", "テ"), KanaEntry("to", "と", "ト")]
  const N_ROW: seq<KanaEntry> := [KanaEntry("na", "な", "ナ"), KanaEntry("ni", "に", "ニ"), KanaEntry("nu", "ぬ", "ヌ"), KanaEntry("ne", "ね", "ネ"), KanaEntry("no", "の", "ノ")]
  const H_ROW: seq<KanaEntry> := [KanaEntry("ha", "は", "ハ"), KanaEntry("hi", "ひ", "ヒ"), KanaEntry("fu", "ふ", "フ"), KanaEntry("he", "へ", "ヘ"), KanaEntry("ho", "ほ", "ホ")]
  const M_ROW: seq<KanaEntry> := [KanaEntry("ma", "ま", "マ"), KanaEntry("mi", "み", "ミ"), KanaEntry("mu", "む", "ム"), KanaEntry("me", "め", "メ"), KanaEntry("mo", "も", "モ")]
  const Y_ROW: seq<KanaEntry> := [KanaEntry("ya", "や", "ヤ"), KanaEntry("yu", "ゆ", "ユ"), KanaEntry("yo", "よ", "ヨ")]
  const R_ROW: seq<KanaEntry> := [KanaEntry("ra", "ら", "ラ"), KanaEntry("ri", "り", "リ"), KanaEntry("ru", "る", "ル"), KanaEntry("re", "れ", "レ"), KanaEntry("ro", "ろ", "ロ")]
  const W_ROW: seq<KanaEntry> := [KanaEntry("wa", "わ", "ワ"), KanaEntry("wo", "を", "ヲ")]
  const SYLLABIC_N: seq<KanaEntry> := [KanaEntry("n", "ん", "ン")]

  const BASIC_KANA: seq<KanaEntry> :=
    VOWELS + K_ROW + S_ROW + T_ROW + N_ROW + H_ROW + M_ROW + Y_ROW + R_ROW + W_ROW + SYLLABIC_N

  predicate IsLowerLetter(c: char) { 'a' <= c <= 'z' }

  predicate IsUpperLetter(c: char) { 'A' <= c <= 'Z' }

  /** A string made only of the letters a to z (the empty string included). */
  predicate IsLowerWord(s: string) {
    forall i :: 0 <= i < |s| ==> IsLowerLetter(s[i])
  }

  /** A reading that can be typed: non-empty, letters a to z only. */
  predicate IsRomaji(s: string) {
    |s| > 0 && IsLowerWord(s)
  }

  /** No two rows of `es` share a reading. */
  predicate Distinct(es: seq<KanaEntry>) {
    forall i, j :: 0 <= i < j < |es| ==> es[i].romaji != es[j].romaji
  }

  /** The line of the syllable chart a reading belongs to, read off its spelling. */
  function ChartLine(r: string): int {
    if |r| == 0 then -1
    else if |r| == 1 then (if r == "n" then 10 else 0)
    else match r[0]
      case 'k' => 1
      case 's' => 2
      case 't' => 3
      case 'c' => 3
      case 'n' => 4
      case 'h' => 5
      case 'f' => 5
      case 'm' => 6
      case 'y' => 7
      case 'r' => 8
      case 'w' => 9
      case _ => -1
  }

  /** Appending a later line of the chart keeps the readings distinct. */
  lemma AppendLine(a: seq<KanaEntry>, b: seq<KanaEntry>, line: int)
    requires Distinct(a) && Distinct(b)
    requires forall i :: 0 <= i < |a| ==> IsRomaji(a[i].romaji) && ChartLine(a[i].romaji) < line
    requires forall i :: 0 <= i < |b| ==> IsRomaji(b[i].romaji) && ChartLine(b[i].romaji) == line
    ensures Distinct(a + b)
    ensures forall i :: 0 <= i < |a + b| ==> IsRomaji((a + b)[i].romaji) && ChartLine((a + b)[i].romaji) <= line
  {
  }

  // The table is checked one chart line at a time; BasicKanaReadings then
  // joins the lines in table order with AppendLine.

  lemma VowelLineChecked()
    ensures Distinct(VOWELS)
    ensures forall i :: 0 <= i < |VOWELS| ==> IsRomaji(VOWELS[i].romaji) && ChartLine(VOWELS[i].romaji) == 0
  {
  }

  lemma KLineChecked()
    ensures Distinct(K_ROW)
    ensures forall i :: 0 <= i < |K_ROW| ==> IsRomaji(K_ROW[i].romaji) && ChartLine(K_ROW[i].romaji) == 1
  {
  }

  lemma SLineChecked()
    ensures Distinct(S_ROW)
    ensures forall i :: 0 <= i < |S_ROW| ==> IsRomaji(S_ROW[i].romaji) && ChartLine(S_ROW[i].romaji) == 2
  {
  }

  lemma TLineChecked()
    ensures Distinct(T_ROW)
    ensures forall i :: 0 <= i < |T_ROW| ==> IsRomaji(T_ROW[i].romaji) && ChartLine(T_ROW[i].romaji) == 3
  {
  }

  lemma NLineChecked()
    ensures Distinct(N_ROW)
    ensures forall i :: 0 <= i < |N_ROW| ==> IsRomaji(N_ROW[i].romaji) && ChartLine(N_ROW[i].romaji) == 4
  {
  }

  lemma HLineChecked()
    ensures Distinct(H_ROW)
    ensures forall i :: 0 <= i < |H_ROW| ==> IsRomaji(H_ROW[i].romaji) && ChartLine(H_ROW[i].romaji) == 5
  {
  }

  lemma MLineChecked()
    ensures Distinct(M_ROW)
    ensures forall i :: 0 <= i < |M_ROW| ==> IsRomaji(M_ROW[i].romaji) && ChartLine(M_ROW[i].romaji) == 6
  {
  }

  lemma YLineChecked()
    ensures Distinct(Y_ROW)
    ensures forall i :: 0 <= i < |Y_ROW| ==> IsRomaji(Y_ROW[i].romaji) && ChartLine(Y_ROW[i].romaji) == 7
  {
  }

  lemma RLineChecked()
    ensures Distinct(R_ROW)
    ensures forall i :: 0 <= i < |R_ROW| ==> IsRomaji(R_ROW[i].romaji) && ChartLine(R_ROW[i].romaji) == 8
  {
  }

  lemma WLineChecked()
    ensures Distinct(W_ROW)
    ensures forall i :: 0 <= i < |W_ROW| ==> IsRomaji(W_ROW[i].romaji) && ChartLine(W_ROW[i].romaji) == 9
  {
  }

  lemma SyllabicNLineChecked()
    ensures Distinct(SYLLABIC_N)
    ensures forall i :: 0 <= i < |SYLLABIC_N| ==> IsRomaji(SYLLABIC_N[i].romaji) && ChartLine(SYLLABIC_N[i].romaji) == 10
  {
  }

  /** Every reading in the table can be typed, and no two rows share a reading. */
  lemma BasicKanaReadings()
    ensures |BASIC_KANA| == 46
    ensures forall i :: 0 <= i < |BASIC_KANA| ==> IsRomaji(BASIC_KANA[i].romaji)
    ensures forall i, j :: 0 <= i < j < |BASIC_KANA| ==> BASIC_KANA[i].romaji != BASIC_KANA[j].romaji
  {
    VowelLineChecked();
    KLineChecked();
    SLineChecked();
    TLineChecked();
    NLineChecked();
    HLineChecked();
    MLineChecked();
    YLineChecked();
    RLineChecked();
    WLineChecked();
    SyllabicNLineChecked();
    AppendLine(VOWELS, K_ROW, 1);
    AppendLine(VOWELS + K_ROW, S_ROW, 2);
    AppendLine(VOWELS + K_ROW + S_ROW, T_ROW, 3);
    AppendLine(VOWELS + K_ROW + S_ROW + T_ROW, N_ROW, 4);
    AppendLine(VOWELS + K_ROW + S_ROW + T_ROW + N_ROW, H_ROW, 5);
    AppendLine(VOWELS + K_ROW + S_ROW + T_ROW + N_ROW + H_ROW, M_ROW, 6);
    AppendLine(VOWELS + K_ROW + S_ROW + T_ROW + N_ROW + H_ROW + M_ROW, Y_ROW, 7);
    AppendLine(VOWELS + K_ROW + S_ROW + T_ROW + N_ROW + H_ROW + M_ROW + Y_ROW, R_ROW, 8);
    AppendLine(VOWELS + K_ROW + S_ROW + T_ROW + N_ROW + H_ROW + M_ROW + Y_ROW + R_ROW, W_ROW, 9);
    AppendLine(VOWELS + K_ROW + S_ROW + T_ROW + N_ROW + H_ROW + M_ROW + Y_ROW + R_ROW + W_ROW, SYLLABIC_N, 10);
  }

  /** The glyph of a table row in the given mode. */
  function Glyph(e: KanaEntry, mode: Mode): string {
    if mode == Hiragana then e.hiragana else e.katakana
  }

  /** A falling kana. Positions and speeds are whole pixels here. */
  datatype Kana = Kana(romaji: string, character: string, x: int, y: int, speed: int)

  /** What every kana on screen satisfies: its reading can be typed and it falls. */
  predicate WellFormed(k: Kana) {
    IsRomaji(k.romaji) && k.speed >= 1
  }

  /** The kana built for table row `index`, drawn in `mode`, at column `x`,
      falling `speed` pixels per frame. The row, the column and the speed
      are the random choices. */
  function NewKana(index: nat, mode: Mode, x: int, speed: int): (k: Kana)
    requires index < |BASIC_KANA|
    requires speed >= 1
    ensures WellFormed(k)
    ensures k.romaji == BASIC_KANA[index].romaji
    ensures k.character == (if mode == Hiragana then BASIC_KANA[index].hiragana else BASIC_KANA[index].katakana)
    ensures k.x == x && k.y == SPAWN_Y && k.speed == speed
    // the fact targeting relies on: a new kana is above y = -1, so Enter
    // cannot pick it before it has fallen into view
    ensures k.y < -1
  {
    BasicKanaReadings();
    var e := BASIC_KANA[index];
    Kana(e.romaji, Glyph(e, mode), x, SPAWN_Y, speed)
  }

  /** One frame of falling: the kana moves down by exactly its speed and
      nothing else about it changes. */
  function Update(k: Kana): (r: Kana)
    ensures r.y - k.y == k.speed
    ensures r.romaji == k.romaji && r.character == k.character && r.x == k.x && r.speed == k.speed
    ensures WellFormed(k) ==> WellFormed(r) && r.y > k.y
  {
    k.(y := k.y + k.speed)
  }
}
