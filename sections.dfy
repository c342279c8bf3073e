/**
 * The markup generated by src/components/Sections.js: the fixed table of the
 * fourteen scenes, one `<section>` panel per scene, and the row of indicator
 * dots. Everything here is a pure function of the table.
 */
module Sections {
  import Transitions

  datatype SceneDef = SceneDef(id: string, title: string, description: string, button: string, layout: string)

  const SCENES: seq<SceneDef> := [
    SceneDef("nebula", "NEBULA<br>GENESIS",
      "ORIGIN POINT. REACTIVE STARDUST FIELD. CURSOR INTERACTION ENABLED.", "ENTER_SYSTEM", "left"),
    SceneDef("crystal", "CRYSTAL<br>ARTIFACT",
      "GEOMETRIC STRUCTURE DETECTED. ENERGY SIGNATURE: UNKNOWN. SCANNING.", "SCAN_OBJECT", "right"),
    SceneDef("grid", "DIGITAL<br>TERRAIN",
      "SYNTHETIC LANDSCAPE. GROUND MATRIX UNSTABLE. PROCEED WITH CAUTION.", "ANALYZE", "left"),
    SceneDef("void", "EVENT<br>HORIZON",
      "SIMULATION BOUNDARY REACHED. DATA BEYOND THIS POINT: NULL.", "CONTINUE", "right"),
    SceneDef("aurora", "AURORA<br>VEIL",
      "ELECTROMAGNETIC ANOMALY. ANCIENT STELLAR RADIATION DETECTED.", "ABSORB_LIGHT", "left"),
    SceneDef("solar", "SOLAR<br>FORGE",
      "DYING STAR CORE. SOLAR FLARE ACTIVITY: CRITICAL. ENERGY HARVESTABLE.", "HARVEST", "right"),
    SceneDef("quantum", "QUANTUM<br>REALM",
      "REALITY FRAGMENTED. PARTICLES IN SUPERPOSITION. OBSERVATION ALTERS STATE.", "OBSERVE", "left"),
    SceneDef("fractal", "FRACTAL<br>DIMENSION",
      "INFINITE RECURSION. PATTERNS WITHIN PATTERNS. ZOOM DEPTH: UNLIMITED.", "ZOOM", "right"),
    SceneDef("pulse", "NEURAL<br>PULSE",
      "COSMIC CONSCIOUSNESS NETWORK. SYNAPTIC CONNECTIONS: 10^82.", "CONNECT", "left"),
    SceneDef("mirror", "MIRROR<br>REALM",
      "DIMENSIONAL REFLECTION. REAL/SIMULATED BOUNDARY: INDETERMINATE.", "STEP_THROUGH", "right"),
    SceneDef("storm", "COSMIC<br>STORM",
      "ELECTROMAGNETIC CHAOS. INTERDIMENSIONAL LIGHTNING. DANGER: EXTREME.", "WEATHER", "left"),
    SceneDef("constellation", "STELLAR<br>CONSTELLATION",
      "STAR MAP INITIALIZED. NODES CONNECTED. ANCIENT NAVIGATION CHART.", "TRACE", "right"),
    SceneDef("warp", "WARP<br>TUNNEL",
      "FTL TRANSIT INITIATED. DIMENSIONAL PIERCE IN PROGRESS. HOLD.", "ENGAGE", "left"),
    SceneDef("genesis", "GENESIS<br>CORE",
      "ORIGIN. TERMINUS. ALL VOYAGES CONVERGE HERE. RESTART AVAILABLE.", "RESTART", "right")
  ]

  /** The table has one entry per scene the controller navigates, with layouts alternating from left. */
  lemma ScenesTable()
    ensures |SCENES| == Transitions.TOTAL_SCENES
    ensures forall k :: 0 <= k < |SCENES| ==> SCENES[k].layout == (if k % 2 == 0 then "left" else "right")
  {
  }

  // ---------------------------------------------------------------------------
  // Numbers and case

  predicate IsDigit(c: char) {
    '0' <= c <= '9'
  }

  predicate AllDigits(s: string) {
    forall i :: 0 <= i < |s| ==> IsDigit(s[i])
  }

  function DigitChar(d: int): (c: char)
    requires 0 <= d < 10
    ensures IsDigit(c) && c as int - '0' as int == d
  {
    ('0' as int + d) as char
  }

  /** `String(n)` for a natural number: its decimal digits, most significant first. */
  function Decimal(n: nat): (r: string)
    ensures |r| >= 1 && AllDigits(r)
    ensures (n < 10) == (|r| == 1)
    decreases n
  {
    if n < 10 then [DigitChar(n)] else Decimal(n / 10) + [DigitChar(n % 10)]
  }

  /** The value of a string of decimal digits (leading zeros allowed). */
  function ParseDecimal(s: string): nat
    requires AllDigits(s)
    decreases |s|
  {
    if s == [] then 0
    else ParseDecimal(s[..|s| - 1]) * 10 + (s[|s| - 1] as int - '0' as int)
  }

  lemma {:induction false} DecimalRoundTrip(n: nat)
    ensures ParseDecimal(Decimal(n)) == n
    decreases n
  {
    if n >= 10 {
      var r := Decimal(n);
      assert r[..|r| - 1] == Decimal(n / 10);
      DecimalRoundTrip(n / 10);
    }
  }

  /** Different numbers print differently. */
  lemma DecimalInjective(m: nat, n: nat)
    requires m != n
    ensures Decimal(m) != Decimal(n)
  {
    DecimalRoundTrip(m);
    DecimalRoundTrip(n);
  }

  /** A leading zero does not change the value. */
  lemma {:induction false} ParseLeadingZero(s: string)
    requires AllDigits(s)
    ensures ParseDecimal(['0'] + s) == ParseDecimal(s)
    decreases |s|
  {
    if s != [] {
      var t := ['0'] + s;
      assert t[..|t| - 1] == ['0'] + s[..|s| - 1];
      ParseLeadingZero(s[..|s| - 1]);
    }
  }

  /** `s.padStart(width, fill)` for a one-character fill. */
  function PadStart(s: string, width: nat, fill: char): (r: string)
    ensures |r| == if |s| >= width then |s| else width
    ensures r[|r| - |s|..] == s
    ensures forall i :: 0 <= i < |r| - |s| ==> r[i] == fill
  {
    if |s| >= width then s else seq(width - |s|, _ => fill) + s
  }

  /** `String(n).padStart(2, '0')`. */
  function TwoDigits(n: nat): string {
    PadStart(Decimal(n), 2, '0')
  }

  /** Up to 99 the padded number has exactly two digits and still reads as `n`. */
  lemma TwoDigitsValue(n: nat)
    requires n < 100
    ensures |TwoDigits(n)| == 2 && AllDigits(TwoDigits(n))
    ensures ParseDecimal(TwoDigits(n)) == n
    ensures n < 10 ==> TwoDigits(n) == ['0', DigitChar(n)]
  {
    DecimalRoundTrip(n);
    var d := Decimal(n);
    if n < 10 {
      assert d == [DigitChar(n)];
      assert TwoDigits(n) == ['0'] + d;
      ParseLeadingZero(d);
    } else {
      assert |Decimal(n / 10)| == 1;
      assert TwoDigits(n) == d;
    }
  }

  /** ASCII part of `toUpperCase`. */
  function UpperChar(c: char): char {
    if 'a' <= c <= 'z' then (c as int - 32) as char else c
  }

  function ToUpper(s: string): (r: string)
    ensures |r| == |s|
    ensures forall i :: 0 <= i < |s| ==> r[i] == UpperChar(s[i])
    decreases |s|
  {
    if s == [] then [] else [UpperChar(s[0])] + ToUpper(s[1..])
  }

  /** Upper-casing leaves no lower-case ASCII letter and changes nothing else. */
  lemma ToUpperFacts(s: string)
    ensures forall i :: 0 <= i < |s| ==> !('a' <= ToUpper(s)[i] <= 'z')
    ensures forall i :: 0 <= i < |s| && !('a' <= s[i] <= 'z') ==> ToUpper(s)[i] == s[i]
    ensures ToUpper(ToUpper(s)) == ToUpper(s)
  {
  }

  // ---------------------------------------------------------------------------
  // Markup of one scene

  /** The scene-number label: `SCENE_` + two-digit number + ` // ` + upper-cased id. */
  function SceneLabel(index: nat, id: string): string {
    "SCENE_" + TwoDigits(index + 1) + " // " + ToUpper(id)
  }

  /** The pieces of a label sit at fixed offsets once the number has two characters. */
  lemma LabelPieces(two: string, up: string)
    requires |two| == 2
    ensures var l := "SCENE_" + two + " // " + up;
      |l| == 12 + |up| &&
      l[..6] == "SCENE_" && l[6..8] == two && l[8..12] == " // " && l[12..] == up
  {
    var l := "SCENE_" + two + " // " + up;
    assert l == ("SCENE_" + two + " // ") + up;
    assert |"SCENE_" + two + " // "| == 12;
  }

  /** Reading the label back: prefix, the scene's 1-based number, separator, upper-cased id. */
  lemma SceneLabelParts(index: nat, id: string)
    requires index < 99
    ensures var l := SceneLabel(index, id);
      |l| == 12 + |id| &&
      l[..6] == "SCENE_" &&
      AllDigits(l[6..8]) && ParseDecimal(l[6..8]) == index + 1 &&
      l[8..12] == " // " &&
      l[12..] == ToUpper(id)
  {
    var two := TwoDigits(index + 1);
    assert |two| == 2 && AllDigits(two) && ParseDecimal(two) == index + 1 by {
      TwoDigitsValue(index + 1);
    }
    LabelPieces(two, ToUpper(id));
  }

  /** Upper-casing an ASCII word, one character at a time. */
  lemma UpperWord(w: string, u: string)
    requires |w| == |u|
    requires forall i :: 0 <= i < |w| ==> UpperChar(w[i]) == u[i]
    ensures ToUpper(w) == u
  {
  }

  lemma EndSceneIds()
    ensures SCENES[0].id == "nebula" && SCENES[13].id == "genesis"
  {
  }

  lemma NebulaPieces()
    ensures TwoDigits(1) == "01" && ToUpper("nebula") == "NEBULA"
    ensures "SCENE_" + "01" + " // " + "NEBULA" == "SCENE_01 // NEBULA"
  {
    TwoDigitsValue(1);
    UpperWord("nebula", "NEBULA");
  }

  lemma NebulaLabel()
    ensures SceneLabel(0, "nebula") == "SCENE_01 // NEBULA"
  {
    NebulaPieces();
  }

  lemma FourteenDigits()
    ensures TwoDigits(14) == "14"
  {
    assert Decimal(1) == "1";
  }

  lemma GenesisPieces()
    ensures ToUpper("genesis") == "GENESIS"
    ensures "SCENE_" + "14" + " // " + "GENESIS" == "SCENE_14 // GENESIS"
  {
    UpperWord("genesis", "GENESIS");
  }

  lemma GenesisLabel()
    ensures SceneLabel(13, "genesis") == "SCENE_14 // GENESIS"
  {
    FourteenDigits();
    GenesisPieces();
  }

  /** The first panel's label. */
  lemma FirstSceneLabel()
    ensures SceneLabel(0, SCENES[0].id) == "SCENE_01 // NEBULA"
  {
    EndSceneIds();
    NebulaLabel();
  }

  /** The last panel's label. */
  lemma LastSceneLabel()
    ensures SceneLabel(13, SCENES[13].id) == "SCENE_14 // GENESIS"
  {
    EndSceneIds();
    GenesisLabel();
  }

  /** The content block's class list: `content right` for a right-hand layout, `content ` otherwise. */
  function ContentClass(layout: string): string {
    "content " + (if layout == "right" then "right" else "")
  }

  lemma ContentClassRight(layout: string)
    ensures ContentClass(layout) == "content right" <==> layout == "right"
    ensures layout != "right" ==> ContentClass(layout) == "content "
  {
    if layout != "right" {
      assert |ContentClass(layout)| == 8;
    }
  }

  /** The opening tag of scene `index`'s panel, after the leading line break and indentation. */
  function OpenSection(sc: SceneDef, index: nat): string {
    "\n        <section id=\"" + SectionId(index) + "\" class=\"layout-" + sc.layout +
    "\" data-scene=\"" + sc.id + "\">"
  }

  /** The `id` of scene `index`'s panel: `scene-` and its 1-based number. */
  function SectionId(index: nat): string {
    "scene-" + Decimal(index + 1)
  }

  /** No two panels share an id. */
  lemma SectionIdsDistinct(j: nat, k: nat)
    requires j != k
    ensures SectionId(j) != SectionId(k)
  {
    DecimalInjective(j + 1, k + 1);
    assert SectionId(j)[6..] == Decimal(j + 1);
    assert SectionId(k)[6..] == Decimal(k + 1);
  }

  /** The template literal `createSections` produces for one scene. */
  function SectionMarkup(sc: SceneDef, index: nat): string {
    OpenSection(sc, index) + SectionBody(sc, index)
  }

  /** Everything after the opening tag: the content block and the closing tag. */
  function SectionBody(sc: SceneDef, index: nat): string {
    "\n            <div class=\"" + ContentClass(sc.layout) + "\">" +
    "\n                <span class=\"scene-number\">" + SceneLabel(index, sc.id) + "</span>" +
    "\n                <h1>" + sc.title + "</h1>" +
    "\n                <p>" + sc.description + "</p>" +
    "\n                <div class=\"accent-line\"></div>" +
    "\n            </div>" +
    "\n        </section>" +
    "\n    "
  }

  /** The template literal `createSceneIndicator` produces for dot `i`. */
  function DotMarkup(sc: SceneDef, i: nat): string {
    "<div class=\"scene-dot\" data-index=\"" + Decimal(i) + "\" data-scene=\"" + ToUpper(sc.id) + "\"></div>"
  }

  // ---------------------------------------------------------------------------
  // The whole document fragments

  /** `parts.join('')`. */
  function Join(parts: seq<string>): string
    decreases |parts|
  {
    if parts == [] then "" else parts[0] + Join(parts[1..])
  }

  lemma {:induction false} JoinAppend(a: seq<string>, b: seq<string>)
    ensures Join(a + b) == Join(a) + Join(b)
    decreases |a|
  {
    if a == [] {
      assert a + b == b;
    } else {
      assert (a + b)[1..] == a[1..] + b;
      JoinAppend(a[1..], b);
    }
  }

  /**
   * Part `k` of a join sits right after the parts before it: the output is the
   * parts, each once, in order.
   */
  lemma JoinAt(parts: seq<string>, k: nat)
    requires k < |parts|
    ensures var off := |Join(parts[..k])|;
      off + |parts[k]| <= |Join(parts)| &&
      Join(parts)[off..off + |parts[k]|] == parts[k] &&
      |Join(parts[..k + 1])| == off + |parts[k]|
  {
    assert parts == parts[..k] + parts[k..];
    JoinAppend(parts[..k], parts[k..]);
    assert parts[k..] == [parts[k]] + parts[k + 1..];
    JoinAppend([parts[k]], parts[k + 1..]);
    assert Join([parts[k]]) == parts[k] + Join([]);
    assert parts[..k + 1] == parts[..k] + [parts[k]];
    JoinAppend(parts[..k], [parts[k]]);
  }

  function SectionParts(scenes: seq<SceneDef>): (r: seq<string>)
    ensures |r| == |scenes|
  {
    seq(|scenes|, i requires 0 <= i < |scenes| => SectionMarkup(scenes[i], i))
  }

  function DotParts(scenes: seq<SceneDef>): (r: seq<string>)
    ensures |r| == |scenes|
  {
    seq(|scenes|, i requires 0 <= i < |scenes| => DotMarkup(scenes[i], i))
  }

  /** `createSections()`. */
  function CreateSections(): string {
    Join(SectionParts(SCENES))
  }

  /** The text of `createSceneIndicator()` before the dot row: a newline, the opening tag, a newline and indentation. */
  const INDICATOR_OPEN: string := "\n        <div class=\"scene-indicator\">\n            "

  /** The text after the dot row. */
  const INDICATOR_CLOSE: string := "\n        </div>\n    "

  /** The `scene-indicator` element holding one dot per scene of `scenes`. */
  function Indicator(scenes: seq<SceneDef>): string {
    INDICATOR_OPEN + Join(DotParts(scenes)) + INDICATOR_CLOSE
  }

  /** `createSceneIndicator()`. */
  function CreateSceneIndicator(): string {
    Indicator(SCENES)
  }

  lemma PrefixOf(a: string, b: string)
    ensures (a + b)[..|a|] == a
  {
  }

  /** A panel's markup begins with its opening tag. */
  lemma SectionOpens(sc: SceneDef, k: nat)
    ensures var m := SectionMarkup(sc, k); |OpenSection(sc, k)| <= |m| && m[..|OpenSection(sc, k)|] == OpenSection(sc, k)
  {
    PrefixOf(OpenSection(sc, k), SectionBody(sc, k));
  }

  /**
   * `createSections` is the fourteen panels back to back, in table order: the
   * panel of scene `k` is its template, and it starts where the panel of
   * scene `k - 1` ends.
   */
  lemma SectionsInOrder(scenes: seq<SceneDef>, k: nat)
    requires k < |scenes|
    ensures SectionParts(scenes)[k] == SectionMarkup(scenes[k], k)
    ensures var parts := SectionParts(scenes);
      var off := |Join(parts[..k])|;
      off + |parts[k]| <= |Join(parts)| &&
      Join(parts)[off..off + |parts[k]|] == parts[k] &&
      |Join(parts[..k + 1])| == off + |parts[k]|
  {
    JoinAt(SectionParts(scenes), k);
  }

  /** The content block of panel `k` carries `right` exactly for a right-hand layout, on the odd panels. */
  lemma SectionContentClass(k: nat)
    requires k < |SCENES|
    ensures (ContentClass(SCENES[k].layout) == "content right") <==> (k % 2 == 1)
    ensures SCENES[k].layout == "right" || ContentClass(SCENES[k].layout) == "content "
  {
    ScenesTable();
    ContentClassRight(SCENES[k].layout);
  }

  /** The second and fourth of five concatenated pieces sit at the offsets their predecessors' lengths say. */
  lemma FivePieces(a: string, b: string, c: string, d: string, e: string)
    ensures var l := a + b + c + d + e;
      |l| == |a| + |b| + |c| + |d| + |e| &&
      l[|a|..|a| + |b|] == b && l[|a| + |b| + |c|..|a| + |b| + |c| + |d|] == d
  {
    var l := a + b + c + d + e;
    assert l == a + (b + (c + (d + e)));
  }

  /**
   * A dot read back: `data-index` holds the decimal digits of `i` and parses
   * back to `i`; `data-scene` holds the upper-cased id.
   */
  lemma DotFields(sc: SceneDef, i: nat)
    ensures var m := DotMarkup(sc, i);
      var d := Decimal(i);
      var u := ToUpper(sc.id);
      |m| == 57 + |d| + |u| &&
      m[35..35 + |d|] == d && AllDigits(m[35..35 + |d|]) && ParseDecimal(m[35..35 + |d|]) == i &&
      m[35 + |d| + 14..35 + |d| + 14 + |u|] == u
  {
    var head := "<div class=\"scene-dot\" data-index=\"";
    var mid := "\" data-scene=\"";
    var tail := "\"></div>";
    assert |head| == 35 && |mid| == 14 && |tail| == 8;
    FivePieces(head, Decimal(i), mid, ToUpper(sc.id), tail);
    assert DotMarkup(sc, i) == head + Decimal(i) + mid + ToUpper(sc.id) + tail;
    DecimalRoundTrip(i);
  }

  /**
   * The dot row of `createSceneIndicator` is one dot per scene, back to back
   * in table order: dot `i` starts where dot `i - 1` ends.
   */
  lemma DotsInOrder(scenes: seq<SceneDef>, i: nat)
    requires i < |scenes|
    ensures var parts := DotParts(scenes);
      var off := |Join(parts[..i])|;
      var m := DotMarkup(scenes[i], i);
      off + |m| <= |Join(parts)| &&
      Join(parts)[off..off + |m|] == m &&
      |Join(parts[..i + 1])| == off + |m|
  {
    JoinAt(DotParts(scenes), i);
  }

  /**
   * In `a + b + c` the first piece opens the text, the last one closes it, and
   * a block `m` found at `off` in `b` is found at `|a| + off` in the whole.
   */
  lemma Embedded(a: string, b: string, c: string, off: nat, m: string)
    requires off + |m| <= |b| && b[off..off + |m|] == m
    ensures var l := a + b + c;
      |l| == |a| + |b| + |c| && l[..|a|] == a && l[|a| + |b|..] == c &&
      |a| + off + |m| <= |l| && l[|a| + off..|a| + off + |m|] == m
  {
    var l := a + b + c;
    assert l == a + (b + c);
    assert l[|a|..|a| + |b|] == b;
    assert l[|a| + off..|a| + off + |m|] == b[off..off + |m|];
  }

  /**
   * The indicator is the `scene-indicator` element around the dot row: it
   * opens the element, then holds the row, then closes the element.
   * `createSceneIndicator` is this for the scene table.
   */
  lemma IndicatorFrame(scenes: seq<SceneDef>)
    ensures var page := Indicator(scenes);
      var row := Join(DotParts(scenes));
      |page| == |INDICATOR_OPEN| + |row| + |INDICATOR_CLOSE| &&
      page[..|INDICATOR_OPEN|] == INDICATOR_OPEN &&
      page[|INDICATOR_OPEN| + |row|..] == INDICATOR_CLOSE
  {
    Embedded(INDICATOR_OPEN, Join(DotParts(scenes)), INDICATOR_CLOSE, 0, []);
  }

  /** Part `k` of a join wrapped in `a` and `c` sits after `a` and the parts before it. */
  lemma WrappedJoinAt(a: string, parts: seq<string>, c: string, k: nat)
    requires k < |parts|
    ensures var off := |a| + |Join(parts[..k])|;
      off + |parts[k]| <= |a + Join(parts) + c| &&
      (a + Join(parts) + c)[off..off + |parts[k]|] == parts[k]
  {
    JoinAt(parts, k);
    Embedded(a, Join(parts), c, |Join(parts[..k])|, parts[k]);
  }

  /** Dot `i` sits in the indicator just after the opening text and the dots before it. */
  lemma IndicatorHoldsDots(scenes: seq<SceneDef>, i: nat)
    requires i < |scenes|
    ensures var page := Indicator(scenes);
      var off := |INDICATOR_OPEN| + |Join(DotParts(scenes)[..i])|;
      var m := DotParts(scenes)[i];
      m == DotMarkup(scenes[i], i) &&
      off + |m| <= |page| && page[off..off + |m|] == m
  {
    WrappedJoinAt(INDICATOR_OPEN, DotParts(scenes), INDICATOR_CLOSE, i);
  }

  /** The page holds one panel and one dot per scene, so every dot index lies in [0, TOTAL_SCENES), the range `goToScene`'s guard admits. */
  lemma PageShape()
    ensures |SectionParts(SCENES)| == |DotParts(SCENES)| == Transitions.TOTAL_SCENES
  {
    ScenesTable();
  }
}
