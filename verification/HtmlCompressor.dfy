/**
 `compress_html` and the snapshot table behind it.  The save path compresses a page and the
 repository compresses the result again; that this stores the same text is idempotence.
 */
module HtmlCompressor {
  import opened Basics

  // ------------------------------------------------------------- characters

  /** What Python's `str.strip()` removes. */
  predicate IsSpace(c: char) {
    var n := c as int;
    || 9 <= n <= 13 || 28 <= n <= 32 || n == 0x85 || n == 0xA0 || n == 0x1680
    || 0x2000 <= n <= 0x200A || n == 0x2028 || n == 0x2029 || n == 0x202F || n == 0x205F || n == 0x3000
  }

  /** Among the ASCII characters: tab to carriage return, the four separators, and the blank. */
  lemma AsciiSpaces(c: char)
    requires (c as int) < 128
    ensures IsSpace(c) <==> c in {'\t', '\n', '\U{B}', '\U{C}', '\r', '\U{1C}', '\U{1D}', '\U{1E}', '\U{1F}', ' '}
  {
    assert c == c as int as char;
  }

  function Utf8Length(s: string): nat {
    if s == "" then 0
    else
      var n := s[0] as int;
      (if n < 0x80 then 1 else if n < 0x800 then 2 else if n < 0x10000 then 3 else 4) + Utf8Length(s[1..])
  }

  // ------------------------------------------------------------- string operations

  function StripLeft(s: string): string {
    if s != "" && IsSpace(s[0]) then StripLeft(s[1..]) else s
  }

  function StripRight(s: string): string {
    if s != "" && IsSpace(s[|s| - 1]) then StripRight(s[..|s| - 1]) else s
  }

  function Strip(s: string): string { StripRight(StripLeft(s)) }

  /** `split('\n')`. */
  function Split(s: string): (lines: seq<string>)
    ensures lines != []
  {
    if s == "" then [""]
    else
      var rest := Split(s[1..]);
      if s[0] == '\n' then [""] + rest else [[s[0]] + rest[0]] + rest[1..]
  }

  /** `' '.join(lines)`. */
  function Join(lines: seq<string>): string {
    if lines == [] then ""
    else if |lines| == 1 then lines[0]
    else Join(lines[..|lines| - 1]) + " " + lines[|lines| - 1]
  }

  /** The lines that are not blank, stripped. */
  function Kept(lines: seq<string>): seq<string> {
    if lines == [] then []
    else
      var line := Strip(lines[|lines| - 1]);
      Kept(lines[..|lines| - 1]) + if line == "" then [] else [line]
  }

  ghost predicate HasPair(s: string) {
    exists i :: 0 <= i < |s| - 1 && s[i] == ' ' && s[i + 1] == ' '
  }

  /** `'  ' in s`. */
  predicate PairFrom(s: string) {
    |s| >= 2 && ((s[0] == ' ' && s[1] == ' ') || PairFrom(s[1..]))
  }

  /** `replace('  ', ' ')`: from the left, without overlaps. */
  function ReplacePairs(s: string): string {
    if |s| < 2 then s
    else if s[0] == ' ' && s[1] == ' ' then " " + ReplacePairs(s[2..])
    else [s[0]] + ReplacePairs(s[1..])
  }

  /** Each run of spaces becomes one space. */
  function Collapse(s: string): string {
    if |s| < 2 then s
    else if s[0] == ' ' && s[1] == ' ' then Collapse(s[1..])
    else [s[0]] + Collapse(s[1..])
  }

  function Compressed(html: string): string {
    Collapse(Join(Kept(Split(html))))
  }

  // ------------------------------------------------------------- the collapse loop

  lemma {:induction false} PairFromIsHasPair(s: string)
    ensures PairFrom(s) <==> HasPair(s)
  {
    if |s| >= 2 {
      PairFromIsHasPair(s[1..]);
      assert forall i :: 0 < i < |s| - 1 && s[i] == ' ' && s[i + 1] == ' ' ==>
          s[1..][i - 1] == ' ' && s[1..][i - 1 + 1] == ' ';
      assert forall i :: 0 <= i < |s[1..]| - 1 && s[1..][i] == ' ' && s[1..][i + 1] == ' ' ==>
          s[i + 1] == ' ' && s[i + 1 + 1] == ' ';
    }
  }

  lemma {:induction false} ReplaceShortens(s: string)
    ensures |ReplacePairs(s)| <= |s|
    ensures PairFrom(s) ==> |ReplacePairs(s)| < |s|
    ensures !PairFrom(s) ==> ReplacePairs(s) == s
    ensures s != "" ==> ReplacePairs(s) != "" && ReplacePairs(s)[0] == s[0]
  {
    if |s| >= 2 {
      if s[0] == ' ' && s[1] == ' ' {
        ReplaceShortens(s[2..]);
      } else {
        ReplaceShortens(s[1..]);
      }
    }
  }

  lemma CollapseHead(c: char, s: string)
    ensures Collapse([c] + s) == if c == ' ' && s != "" && s[0] == ' ' then Collapse(s) else [c] + Collapse(s)
  {
    assert ([c] + s)[1..] == s;
  }

  /** One round of replacement does not change what the runs collapse to. */
  lemma {:induction false} ReplaceKeepsCollapse(s: string)
    ensures Collapse(ReplacePairs(s)) == Collapse(s)
  {
    if |s| >= 2 {
      ReplaceShortens(s[1..]);
      if s[0] == ' ' && s[1] == ' ' {
        var rest := s[2..];
        ReplaceKeepsCollapse(rest);
        ReplaceShortens(rest);
        CollapseHead(' ', ReplacePairs(rest));
        CollapseHead(' ', rest);
        assert s[1..] == [' '] + rest;
      } else {
        ReplaceKeepsCollapse(s[1..]);
        CollapseHead(s[0], ReplacePairs(s[1..]));
      }
    }
  }

  lemma {:induction false} NoPairCollapse(s: string)
    ensures !PairFrom(s) ==> Collapse(s) == s
    ensures !PairFrom(Collapse(s))
    ensures s != "" ==> Collapse(s) != "" && Collapse(s)[0] == s[0]
  {
    if |s| >= 2 {
      NoPairCollapse(s[1..]);
      if !(s[0] == ' ' && s[1] == ' ') {
        assert Collapse(s)[1..] == Collapse(s[1..]);
      }
    }
  }

  /** The `while '  ' in compressed` loop ends, and leaves one space for each run. */
  method CollapseSpaces(s: string) returns (compressed: string)
    ensures compressed == Collapse(s)
  {
    compressed := s;
    while PairFrom(compressed)
      invariant Collapse(compressed) == Collapse(s)
      decreases |compressed|
    {
      ReplaceShortens(compressed);
      ReplaceKeepsCollapse(compressed);
      compressed := ReplacePairs(compressed);
    }
    NoPairCollapse(compressed);
  }

  method CompressHtml(html: string) returns (compressed: string)
    ensures compressed == Compressed(html)
  {
    var lines := Split(html);
    var compressedLines: seq<string> := [];
    for i := 0 to |lines|
      invariant compressedLines == Kept(lines[..i])
    {
      assert lines[..i + 1][..i] == lines[..i];
      if Strip(lines[i]) != "" {
        compressedLines := compressedLines + [Strip(lines[i])];
      }
    }
    assert lines[..|lines|] == lines;
    compressed := CollapseSpaces(Join(compressedLines));
  }

  // ------------------------------------------------------------- what survives

  function Visible(s: string): string {
    if s == "" then "" else (if IsSpace(s[0]) then "" else [s[0]]) + Visible(s[1..])
  }

  lemma {:induction false} VisibleOfSplit(a: string, b: string)
    ensures Visible(a + b) == Visible(a) + Visible(b)
  {
    if a == "" {
      assert a + b == b;
    } else {
      assert (a + b)[1..] == a[1..] + b;
      VisibleOfSplit(a[1..], b);
    }
  }

  lemma {:induction false} StripKeepsVisible(s: string)
    ensures Visible(StripLeft(s)) == Visible(s)
    ensures Visible(StripRight(s)) == Visible(s)
    decreases |s|
  {
    if s != "" {
      if IsSpace(s[0]) {
        StripKeepsVisible(s[1..]);
      }
      if IsSpace(s[|s| - 1]) {
        var last := [s[|s| - 1]];
        StripKeepsVisible(s[..|s| - 1]);
        VisibleOfSplit(s[..|s| - 1], last);
        assert s == s[..|s| - 1] + last;
        assert last[1..] == "";
      }
    }
  }

  /** The visible characters of the lines, in order. */
  function VisibleLines(lines: seq<string>): string {
    if lines == [] then "" else VisibleLines(lines[..|lines| - 1]) + Visible(lines[|lines| - 1])
  }

  lemma {:induction false} VisibleLinesFront(first: string, lines: seq<string>)
    ensures VisibleLines([first] + lines) == Visible(first) + VisibleLines(lines)
  {
    if lines == [] {
      assert [first] + lines == [first] && [first][..0] == [];
    } else {
      var all := [first] + lines;
      assert all[..|all| - 1] == [first] + lines[..|lines| - 1];
      VisibleLinesFront(first, lines[..|lines| - 1]);
    }
  }

  lemma VisibleCons(c: char, s: string)
    ensures Visible([c] + s) == (if IsSpace(c) then "" else [c]) + Visible(s)
  {
    assert ([c] + s)[1..] == s;
  }

  lemma {:induction false} SplitKeepsVisible(s: string)
    ensures VisibleLines(Split(s)) == Visible(s)
  {
    if s == "" {
      assert [""][..0] == [];
    } else {
      var c, rest := s[0], Split(s[1..]);
      SplitKeepsVisible(s[1..]);
      VisibleCons(c, s[1..]);
      assert s == [c] + s[1..];
      hide Visible, VisibleLines;
      SplitConsVisible(c, rest);
    }
  }

  lemma SplitConsVisible(c: char, rest: seq<string>)
    requires rest != []
    ensures VisibleLines(if c == '\n' then [""] + rest else [[c] + rest[0]] + rest[1..]) ==
            (if IsSpace(c) then "" else [c]) + VisibleLines(rest)
  {
    var head, tail := rest[0], rest[1..];
    assert rest == [head] + tail;
    VisibleLinesFront(head, tail);
    if c == '\n' {
      VisibleLinesFront("", rest);
    } else {
      hide IsSpace;
      VisibleLinesFront([c] + head, tail);
      VisibleCons(c, head);
    }
  }

  lemma {:induction false} KeptKeepsVisible(lines: seq<string>)
    ensures Visible(Join(Kept(lines))) == VisibleLines(lines)
  {
    if lines != [] {
      hide IsSpace, Strip, Join;
      var kept, line := Kept(lines[..|lines| - 1]), Strip(lines[|lines| - 1]);
      KeptKeepsVisible(lines[..|lines| - 1]);
      StripKept(lines[|lines| - 1]);
      if line != "" {
        JoinVisible(kept, line);
      } else {
        assert Kept(lines) == kept;
      }
    }
  }

  lemma StripKept(s: string)
    ensures Visible(Strip(s)) == Visible(s)
  {
    StripKeepsVisible(s);
    StripKeepsVisible(StripLeft(s));
  }

  lemma JoinVisible(lines: seq<string>, line: string)
    ensures Visible(Join(lines + [line])) == Visible(Join(lines)) + Visible(line)
  {
    JoinAppend(lines, line);
    VisibleOfSplit(Join(lines) + " ", line);
    VisibleOfSplit(Join(lines), " ");
    assert " "[1..] == "";
  }

  lemma JoinAppend(lines: seq<string>, line: string)
    ensures Join(lines + [line]) == if lines == [] then line else Join(lines) + " " + line
  {
    assert (lines + [line])[..|lines|] == lines;
  }

  lemma {:induction false} CollapseKeepsVisible(s: string)
    ensures Visible(Collapse(s)) == Visible(s)
  {
    if |s| >= 2 {
      CollapseKeepsVisible(s[1..]);
      if !(s[0] == ' ' && s[1] == ' ') {
        assert Collapse(s)[1..] == Collapse(s[1..]);
      }
    }
  }

  /** Compression keeps every visible character, in order. */
  lemma CompressKeepsVisible(html: string)
    ensures Visible(Compressed(html)) == Visible(html)
  {
    SplitKeepsVisible(html);
    KeptKeepsVisible(Split(html));
    CollapseKeepsVisible(Join(Kept(Split(html))));
  }

  // ------------------------------------------------------------- the compressed form

  ghost predicate Trimmed(s: string) {
    s != "" ==> !IsSpace(s[0]) && !IsSpace(s[|s| - 1])
  }

  ghost predicate Tidy(s: string) {
    && '\n' !in s
    && !HasPair(s)
    && Trimmed(s)
  }

  lemma {:induction false} StripTrims(s: string)
    ensures StripLeft(s) != "" ==> !IsSpace(StripLeft(s)[0])
    ensures forall c :: c in StripLeft(s) ==> c in s
    ensures forall c :: c in StripRight(s) ==> c in s
    ensures StripRight(s) <= s && (StripRight(s) != "" ==> !IsSpace(StripRight(s)[|StripRight(s)| - 1]))
    decreases |s|
  {
    if s != "" {
      if IsSpace(s[0]) {
        StripTrims(s[1..]);
      }
      if IsSpace(s[|s| - 1]) {
        StripTrims(s[..|s| - 1]);
      }
    }
  }

  lemma {:induction false} SplitLinesHaveNoNewline(s: string)
    ensures forall i :: 0 <= i < |Split(s)| ==> '\n' !in Split(s)[i]
  {
    if s != "" {
      SplitLinesHaveNoNewline(s[1..]);
    }
  }

  ghost predicate GoodLine(line: string) {
    line != "" && Trimmed(line) && '\n' !in line
  }

  lemma {:induction false} KeptLinesAreGood(lines: seq<string>)
    requires forall i :: 0 <= i < |lines| ==> '\n' !in lines[i]
    ensures forall i :: 0 <= i < |Kept(lines)| ==> GoodLine(Kept(lines)[i])
  {
    if lines != [] {
      KeptLinesAreGood(lines[..|lines| - 1]);
      StripTrims(lines[|lines| - 1]);
      StripTrims(StripLeft(lines[|lines| - 1]));
    }
  }

  lemma {:induction false} JoinOfGood(lines: seq<string>)
    requires forall i :: 0 <= i < |lines| ==> GoodLine(lines[i])
    ensures lines != [] ==> GoodLine(Join(lines))
  {
    if |lines| > 1 {
      JoinOfGood(lines[..|lines| - 1]);
    }
  }

  lemma {:induction false} CollapseKeepsEnds(s: string)
    ensures s != "" ==> Collapse(s) != "" && Collapse(s)[0] == s[0] && Collapse(s)[|Collapse(s)| - 1] == s[|s| - 1]
    ensures forall c :: c in Collapse(s) ==> c in s
  {
    if |s| >= 2 {
      CollapseKeepsEnds(s[1..]);
    }
  }

  /** The result has no newline, no double space and no outer whitespace. */
  lemma CompressTidies(html: string)
    ensures Tidy(Compressed(html))
  {
    var lines := Kept(Split(html));
    SplitLinesHaveNoNewline(html);
    KeptLinesAreGood(Split(html));
    JoinOfGood(lines);
    CollapseKeepsEnds(Join(lines));
    NoPairCollapse(Join(lines));
    PairFromIsHasPair(Collapse(Join(lines)));
  }

  lemma {:induction false} SplitOneLine(s: string)
    requires '\n' !in s
    ensures Split(s) == [s]
  {
    if s != "" {
      SplitOneLine(s[1..]);
      assert [s[0]] + s[1..] == s;
    }
  }

  /** Exactly the tidy texts are left alone. */
  lemma FixedExactly(html: string)
    ensures Compressed(html) == html <==> Tidy(html)
  {
    CompressTidies(html);
    if Tidy(html) {
      SplitOneLine(html);
      assert [html][..0] == [];
      assert StripLeft(html) == html && StripRight(html) == html;
      assert Kept([html]) == if html == "" then [] else [html];
      PairFromIsHasPair(html);
      NoPairCollapse(html);
    }
  }

  lemma CompressIdempotent(html: string)
    ensures Compressed(Compressed(html)) == Compressed(html)
  {
    CompressTidies(html);
    FixedExactly(Compressed(html));
  }

  // ------------------------------------------------------------- what the spaces become

  lemma {:induction false} SplitAtNewline(a: string, b: string)
    ensures Split(a + "\n" + b) == Split(a) + Split(b)
  {
    var all := a + "\n" + b;
    if a == "" {
      assert all == "\n" + b && all[1..] == b;
    } else {
      assert all[1..] == a[1..] + "\n" + b && all[0] == a[0];
      SplitAtNewline(a[1..], b);
    }
  }

  lemma {:induction false} KeptSplit(a: seq<string>, b: seq<string>)
    ensures Kept(a + b) == Kept(a) + Kept(b)
  {
    if b == [] {
      assert a + b == a;
    } else {
      assert (a + b)[..|a + b| - 1] == a + b[..|b| - 1];
      KeptSplit(a, b[..|b| - 1]);
    }
  }

  /** One space between two texts, none next to an empty one. */
  function Glue(a: string, b: string): string {
    if a == "" then b else if b == "" then a else a + " " + b
  }

  lemma {:induction false} JoinSplit(a: seq<string>, b: seq<string>)
    requires a != [] && b != []
    ensures Join(a + b) == Join(a) + " " + Join(b)
  {
    var front, last := b[..|b| - 1], b[|b| - 1];
    assert a + b == (a + front) + [last] && b == front + [last];
    JoinAppend(a + front, last);
    JoinAppend(front, last);
    if front == [] {
      assert a + front == a;
    } else {
      JoinSplit(a, front);
    }
  }

  /** Between texts without outer spaces the one space stays, and runs inside each collapse on their own. */
  lemma {:induction false} CollapseAround(a: string, b: string)
    requires a != "" && b != "" && a[|a| - 1] != ' ' && b[0] != ' '
    ensures Collapse(a + " " + b) == Collapse(a) + " " + Collapse(b)
  {
    var c, rest := a[0], a[1..];
    assert [c] + rest == a;
    if rest == "" {
      assert Collapse(a) == a;
      hide Collapse;
      CollapseHead(' ', b);
      CollapseHead(c, [' '] + b);
      assert a + " " + b == [c] + ([' '] + b);
      assert a + " " + Collapse(b) == [c] + ([' '] + Collapse(b));
    } else {
      hide Collapse;
      CollapseAround(rest, b);
      ConsBefore(c, rest, b);
      ConsBefore(c, Collapse(rest), Collapse(b));
      CollapseHead(c, rest + " " + b);
      CollapseHead(c, rest);
      assert (rest + " " + b)[0] == rest[0];
    }
  }

  lemma ConsBefore(c: char, a: string, b: string)
    ensures [c] + a + " " + b == [c] + (a + " " + b)
  {
  }

  /** Compressing line by line: the compressed lines that are not empty, with one space between them. */
  lemma CompressLines(a: string, b: string)
    ensures Compressed(a + "\n" + b) == Glue(Compressed(a), Compressed(b))
  {
    var x, y := Kept(Split(a)), Kept(Split(b));
    SplitAtNewline(a, b);
    KeptSplit(Split(a), Split(b));
    LinesAreGood(a);
    LinesAreGood(b);
    assert x + [] == x && [] + y == y;
    if x != [] && y != [] {
      JoinSplit(x, y);
      CollapseKeepsEnds(Join(x));
      CollapseKeepsEnds(Join(y));
      CollapseAround(Join(x), Join(y));
    }
  }

  lemma LinesAreGood(s: string)
    ensures Kept(Split(s)) != [] ==> GoodLine(Join(Kept(Split(s)))) && Compressed(s) != ""
  {
    SplitLinesHaveNoNewline(s);
    KeptLinesAreGood(Split(s));
    JoinOfGood(Kept(Split(s)));
    CollapseKeepsEnds(Join(Kept(Split(s))));
  }

  ghost predicate AllSpace(s: string) {
    forall c :: c in s ==> IsSpace(c)
  }

  /** A line loses its outer whitespace, and each run of spaces in it becomes one; nothing else happens to it. */
  lemma CompressOneLine(line: string) returns (left: string, inner: string, right: string)
    requires '\n' !in line
    ensures line == left + inner + right && AllSpace(left) && AllSpace(right) && Trimmed(inner)
    ensures Compressed(line) == Collapse(inner)
  {
    left, inner, right := StripExactly(line);
    hide Strip, Collapse, AllSpace, Trimmed;
    SplitOneLine(line);
    assert [line][..0] == [];
    assert Kept([line]) == if inner == "" then [] else [inner];
  }

  lemma StripExactly(s: string) returns (left: string, inner: string, right: string)
    ensures s == left + inner + right && AllSpace(left) && AllSpace(right) && Trimmed(inner) && inner == Strip(s)
  {
    left, inner := StripLeftExactly(s);
    inner, right := StripRightExactly(inner);
    StripTrims(s);
    StripTrims(StripLeft(s));
    hide StripLeft, StripRight, IsSpace, AllSpace;
  }

  lemma {:induction false} StripLeftExactly(s: string) returns (left: string, inner: string)
    ensures s == left + inner && AllSpace(left) && inner == StripLeft(s)
  {
    if s != "" && IsSpace(s[0]) {
      left, inner := StripLeftExactly(s[1..]);
      left := [s[0]] + left;
    } else {
      left, inner := "", s;
    }
  }

  lemma {:induction false} StripRightExactly(s: string) returns (inner: string, right: string)
    ensures s == inner + right && AllSpace(right) && inner == StripRight(s)
  {
    if s != "" && IsSpace(s[|s| - 1]) {
      inner, right := StripRightExactly(s[..|s| - 1]);
      right := right + [s[|s| - 1]];
    } else {
      inner, right := s, "";
    }
  }

  /** What collapsing is: a text without a double space stays as it is, and a double space counts as one. */
  lemma {:induction false} CollapseExactly(a: string, b: string)
    ensures !HasPair(a) ==> Collapse(a) == a
    ensures Collapse(a + "  " + b) == Collapse(a + " " + b)
  {
    PairFromIsHasPair(a);
    NoPairCollapse(a);
    if a == "" {
      assert a + "  " + b == [' '] + ([' '] + b) && a + " " + b == [' '] + b;
      CollapseHead(' ', [' '] + b);
    } else {
      CollapseExactly(a[1..], b);
      assert a + "  " + b == [a[0]] + (a[1..] + "  " + b) && a + " " + b == [a[0]] + (a[1..] + " " + b);
      CollapseHead(a[0], a[1..] + "  " + b);
      CollapseHead(a[0], a[1..] + " " + b);
      assert (a[1..] + "  " + b)[0] == (a[1..] + " " + b)[0];
    }
  }

  // ------------------------------------------------------------- the snapshot table

  datatype Snapshot = Snapshot(content: string, compressed: bool, parsedData: Option<string>)

  function RemoveNul(s: string): string {
    if s == "" then "" else (if s[0] == '\0' then "" else [s[0]]) + RemoveNul(s[1..])
  }

  const THRESHOLD := 1024

  predicate ShouldCompress(html: string) { Utf8Length(html) > THRESHOLD }

  /** What a page's row holds after a save. */
  function Saved(table: map<string, Snapshot>, page: string, html: string, parsedData: Option<string>): Snapshot {
    var clean := RemoveNul(html);
    Snapshot(if ShouldCompress(clean) then Compressed(clean) else clean,
             ShouldCompress(clean),
             if parsedData == None && page in table then table[page].parsedData else parsedData)
  }

  class SnapshotStore {
    var table: map<string, Snapshot>

    constructor ()
      ensures table == map[]
    {
      table := map[];
    }

    /** The repository's upsert, which compresses whatever is marked compressed. */
    method SaveSnapshot(page: string, html: string, compressed: bool, parsedData: Option<string>)
      modifies this
      ensures table == old(table)[page := Snapshot(
                                    if compressed then Compressed(html) else html,
                                    compressed,
                                    if parsedData == None && page in old(table) then old(table)[page].parsedData
                                    else parsedData)]
    {
      var content := html;
      if compressed {
        content := CompressHtml(html);
      }
      if page in table {
        var existing := table[page].(content := content, compressed := compressed);
        if parsedData != None {
          existing := existing.(parsedData := parsedData);
        }
        table := table[page := existing];
      } else {
        table := table[page := Snapshot(content, compressed, parsedData)];
      }
    }

    /** The service's save: the text is compressed here and once more in the repository. */
    method PersistSnapshot(page: string, html: string, parsedData: Option<string>)
      modifies this
      ensures table == old(table)[page := Saved(old(table), page, html, parsedData)]
    {
      var clean := RemoveNul(html);
      var content := clean;
      var compressed := ShouldCompress(clean);
      if compressed {
        content := CompressHtml(clean);
        CompressIdempotent(clean);
      }
      SaveSnapshot(page, content, compressed, parsedData);
    }

    /** The batched read, 1000 ids a query. */
    method GetByPageIds(pages: seq<string>) returns (out: map<string, Snapshot>)
      ensures out == map page | page in pages && page in table :: table[page]
    {
      out := map[];
      var start := 0;
      while start < |pages|
        invariant 0 <= start
        invariant out == map page | page in pages[..Min(start, |pages|)] && page in table :: table[page]
      {
        var end := Min(start + 1000, |pages|);
        var batch := pages[start..end];
        assert pages[..end] == pages[..start] + batch;
        out := out + map page | page in batch && page in table :: table[page];
        start := start + 1000;
      }
    }
  }

  function Min(a: nat, b: nat): nat { if a < b then a else b }

  lemma {:induction false} RemoveNulRemoves(s: string)
    ensures '\0' !in RemoveNul(s)
    ensures '\0' !in s ==> RemoveNul(s) == s
  {
    if s != "" {
      RemoveNulRemoves(s[1..]);
    }
  }

  lemma {:induction false} RemoveNulSplit(a: string, b: string)
    ensures RemoveNul(a + b) == RemoveNul(a) + RemoveNul(b)
  {
    if a == "" {
      assert a + b == b;
    } else {
      assert (a + b)[1..] == a[1..] + b;
      RemoveNulSplit(a[1..], b);
    }
  }

  /** Every character but NUL stays, in its place. */
  lemma RemoveNulExactly(before: string, c: char, after: string)
    ensures RemoveNul(before + [c] + after) == RemoveNul(before) + (if c == '\0' then "" else [c]) + RemoveNul(after)
  {
    assert [c][1..] == "";
    assert RemoveNul([c]) == if c == '\0' then "" else [c];
    hide RemoveNul;
    RemoveNulSplit(before + [c], after);
    RemoveNulSplit(before, [c]);
  }

  lemma {:induction false} Utf8LengthSplit(a: string, b: string)
    ensures Utf8Length(a + b) == Utf8Length(a) + Utf8Length(b)
  {
    if a == "" {
      assert a + b == b;
    } else {
      assert (a + b)[1..] == a[1..] + b;
      Utf8LengthSplit(a[1..], b);
    }
  }

  /** The length compared with the threshold counts one to four bytes a character, by its code. */
  lemma Utf8LengthExactly(before: string, c: char, after: string)
    ensures var n := c as int;
            Utf8Length(before + [c] + after) == Utf8Length(before) + Utf8Length(after) +
              if n >= 0x10000 then 4 else if n >= 0x800 then 3 else if n >= 0x80 then 2 else 1
  {
    assert [c][1..] == "" && Utf8Length("") == 0;
    Utf8LengthSplit(before + [c], after);
    Utf8LengthSplit(before, [c]);
  }

  /** A text of more than 1024 bytes, NULs aside, is stored compressed, and parsed data is only replaced by parsed data. */
  lemma SavedExactly(table: map<string, Snapshot>, page: string, html: string, parsedData: Option<string>)
    ensures var row, clean := Saved(table, page, html, parsedData), RemoveNul(html);
            && (row.compressed <==> Utf8Length(clean) > 1024)
            && row.content == (if row.compressed then Compressed(clean) else clean)
            && (parsedData.Some? ==> row.parsedData == parsedData)
            && (parsedData.None? ==> row.parsedData == if page in table then table[page].parsedData else None)
  {
  }

  /**
   Saving again what a save stored keeps the text, and keeps the row unless the compressed text has
   come under the threshold, when only the flag changes.
   */
  lemma ResaveKeepsContent(table: map<string, Snapshot>, page: string, html: string, parsedData: Option<string>)
    ensures var stored := Saved(table, page, html, parsedData);
            var again := Saved(table[page := stored], page, stored.content, None);
            && again.content == stored.content && again.parsedData == stored.parsedData
            && (again == stored <==> (stored.compressed ==> Utf8Length(stored.content) > THRESHOLD))
  {
    var clean, stored := RemoveNul(html), Saved(table, page, html, parsedData);
    RemoveNulRemoves(html);
    CompressIdempotent(clean);
    if stored.compressed {
      CompressedHasNoNul(clean);
    }
    RemoveNulRemoves(stored.content);
  }

  lemma {:induction false} NulIsVisible(s: string)
    ensures '\0' in s <==> '\0' in Visible(s)
  {
    if s != "" {
      NulIsVisible(s[1..]);
    }
  }

  lemma CompressedHasNoNul(s: string)
    requires '\0' !in s
    ensures '\0' !in Compressed(s)
  {
    NulIsVisible(s);
    CompressKeepsVisible(s);
    NulIsVisible(Compressed(s));
  }
}
