/** Documents and tables on top of the escaper: no value breaks out of its cell, its line or its block. */
module Markdown {
  import opened Collections
  import opened Wrappers
  import opened Texts
  import opened Escaping

  datatype Table = Table(headers: seq<Text>, rows: seq<seq<Text>>)
  /** Absent paragraphs and bullets are empty lists, which the source renders alike. */
  datatype Section = Section(heading: Text, paragraphs: seq<Text>, bullets: seq<Text>, table: Option<Table>)
  datatype Doc = Doc(title: Text, subtitle: Option<Text>, sections: seq<Section>)

  const HASH: Unit := 0x23
  const DASH: Unit := 0x2D

  function Join(parts: seq<Text>, separator: Text): Text {
    if parts == [] then []
    else if |parts| == 1 then parts[0]
    else parts[0] + separator + Join(parts[1..], separator)
  }

  /** The `width` cells of a row: missing ones empty, further ones dropped, each escaped. */
  function EscapedCells(cells: seq<Text>, width: nat): (r: seq<Text>)
    ensures |r| == width
  {
    seq(width, i requires 0 <= i < width => EscapeMarkdownText(Cell(cells, i)))
  }

  function Cell(cells: seq<Text>, i: nat): Text {
    if i < |cells| then cells[i] else []
  }

  function Bars(cells: seq<Text>): Text {
    [PIPE, SPACE] + Join(cells, [SPACE, PIPE, SPACE]) + [SPACE, PIPE]
  }

  function RowText(cells: seq<Text>, width: nat): Text {
    Bars(EscapedCells(cells, width))
  }

  function TableLines(table: Table): (lines: seq<Text>)
    ensures |lines| == 2 + |table.rows|
  {
    var width := |table.headers|;
    [RowText(table.headers, width), Bars(Repeated(RULE, width))]
    + seq(|table.rows|, i requires 0 <= i < |table.rows| => RowText(table.rows[i], width))
  }

  // ---- Reading a row: a backslash escapes the next character, an unescaped pipe ends a piece ----

  function Attach(prefix: Text, pieces: seq<Text>): seq<Text>
    requires pieces != []
  {
    [prefix + pieces[0]] + pieces[1..]
  }

  function Pieces(t: Text): (r: seq<Text>)
    ensures r != []
  {
    if t == [] then [[]]
    else if t[0] == 0x5C && |t| >= 2 then Attach(t[..2], Pieces(t[2..]))
    else if t[0] == 0x7C then [[]] + Pieces(t[1..])
    else Attach([t[0]], Pieces(t[1..]))
  }

  lemma AttachTwice(a: Text, b: Text, pieces: seq<Text>)
    requires pieces != []
    ensures Attach(a, Attach(b, pieces)) == Attach(a + b, pieces)
  {
    assert a + (b + pieces[0]) == (a + b) + pieces[0];
  }

  lemma AttachNothing(pieces: seq<Text>)
    requires pieces != []
    ensures Attach([], pieces) == pieces
  {
    assert [] + pieces[0] == pieces[0];
  }

  lemma EscapeStaysInside(u: Unit, rest: Text)
    ensures Pieces(Escape(u) + rest) == Attach(Escape(u), Pieces(rest))
  {
    var t := Escape(u) + rest;
    if u == BACKSLASH || u == PIPE || IsBracket(u) {
      assert t[..2] == Escape(u) && t[2..] == rest;
    } else {
      EscapeIsPlain(u);
      PlainStaysInside(Escape(u), rest);
    }
  }

  lemma EscapeIsPlain(u: Unit)
    requires u != BACKSLASH && u != PIPE && !IsBracket(u)
    ensures forall i :: 0 <= i < |Escape(u)| ==> Escape(u)[i] != BACKSLASH && Escape(u)[i] != PIPE
  {}

  lemma {:induction false} PlainStaysInside(p: Text, rest: Text)
    requires forall i :: 0 <= i < |p| ==> p[i] != BACKSLASH && p[i] != PIPE
    ensures Pieces(p + rest) == Attach(p, Pieces(rest))
  {
    if p == [] {
      assert p + rest == rest;
      AttachNothing(Pieces(rest));
    } else {
      assert (p + rest)[1..] == p[1..] + rest;
      PlainStaysInside(p[1..], rest);
      AttachTwice([p[0]], p[1..], Pieces(rest));
      assert [p[0]] + p[1..] == p;
    }
  }

  /** No escaped text ends a piece, or leaves the scanner in the middle of an escape. */
  lemma {:induction false} EscapedStaysInside(t: Text, rest: Text)
    ensures Pieces(Substituted(t) + rest) == Attach(Substituted(t), Pieces(rest))
  {
    if t == [] {
      assert Substituted(t) + rest == rest;
      AttachNothing(Pieces(rest));
    } else {
      var tail := Substituted(t[1..]) + rest;
      assert Substituted(t) + rest == Escape(t[0]) + tail;
      EscapeStaysInside(t[0], tail);
      EscapedStaysInside(t[1..], rest);
      AttachTwice(Escape(t[0]), Substituted(t[1..]), Pieces(rest));
    }
  }

  /** What a row looks like between its bars. */
  function Spaced(cell: Text): Text {
    [SPACE] + cell + [SPACE]
  }

  /** An escaped cell between spaces, then a bar: one piece, and the scan goes on behind the bar. */
  lemma SpacedCell(t: Text, rest: Text)
    ensures Pieces([SPACE] + Substituted(t) + [SPACE, PIPE] + rest) == [Spaced(Substituted(t))] + Pieces(rest)
  {
    var cell := Substituted(t);
    var behind := [SPACE] + ([PIPE] + rest);
    assert [SPACE] + cell + [SPACE, PIPE] + rest == [SPACE] + (cell + behind);
    PlainStaysInside([SPACE], cell + behind);
    EscapedStaysInside(t, behind);
    PlainStaysInside([SPACE], [PIPE] + rest);
    assert ([PIPE] + rest)[1..] == rest;
    assert Pieces(behind) == [[SPACE]] + Pieces(rest) by { assert [SPACE] + [] == [SPACE]; }
    AttachTwice([SPACE], cell, Pieces(behind));
  }

  function SubstitutedAll(texts: seq<Text>): (r: seq<Text>)
    ensures |r| == |texts| && forall i :: 0 <= i < |r| ==> r[i] == Substituted(texts[i])
  {
    seq(|texts|, i requires 0 <= i < |texts| => Substituted(texts[i]))
  }

  /** The inside of a row, from behind its first bar. */
  function Inside(cells: seq<Text>): Text {
    [SPACE] + Join(cells, [SPACE, PIPE, SPACE]) + [SPACE, PIPE]
  }

  lemma InsideStep(cells: seq<Text>)
    requires cells != []
    ensures Inside(cells) == [SPACE] + cells[0] + [SPACE, PIPE] + (if |cells| == 1 then [] else Inside(cells[1..]))
  {}

  function SpacedAll(texts: seq<Text>): (r: seq<Text>)
    ensures |r| == |texts| && forall i :: 0 <= i < |r| ==> r[i] == Spaced(Substituted(texts[i]))
  {
    seq(|texts|, i requires 0 <= i < |texts| => Spaced(Substituted(texts[i])))
  }

  lemma AllButFirst(texts: seq<Text>)
    requires texts != []
    ensures SubstitutedAll(texts)[1..] == SubstitutedAll(texts[1..])
    ensures SpacedAll(texts) == [Spaced(Substituted(texts[0]))] + SpacedAll(texts[1..])
  {}

  lemma {:induction false} InsidePieces(texts: seq<Text>)
    requires texts != []
    ensures Pieces(Inside(SubstitutedAll(texts))) == SpacedAll(texts) + [[]]
  {
    InsideStep(SubstitutedAll(texts));
    if |texts| == 1 {
      SpacedCell(texts[0], []);
      assert Pieces([]) == [[]];
    } else {
      var rest := Inside(SubstitutedAll(texts[1..]));
      AllButFirst(texts);
      SpacedCell(texts[0], rest);
      InsidePieces(texts[1..]);
    }
  }

  /** The cells a scanner sees in a row: what lies between the first and the last bar. */
  function ScannedCells(row: Text): seq<Text> {
    var p := Pieces(row);
    if |p| < 2 then [] else p[1..|p| - 1]
  }

  lemma SpacedTrims(cell: Text)
    requires Trimmed(cell)
    ensures Trim(Spaced(cell)) == cell
  {
    assert Spaced(cell)[1..] == cell + [SPACE];
    if cell == [] {
      assert [] + [SPACE] == [SPACE] && [SPACE][1..] == [];
      assert TrimStart(Spaced(cell)) == TrimStart([SPACE]) == TrimStart([]) == [];
    } else {
      assert TrimStart(cell + [SPACE]) == cell + [SPACE];
      assert (cell + [SPACE])[..|cell|] == cell;
      assert TrimEnd(cell + [SPACE]) == TrimEnd(cell) == cell;
      assert TrimStart(Spaced(cell)) == TrimStart(cell + [SPACE]);
    }
  }

  /** The source cells in normal form: padded or cut to the width. */
  function NormalCells(cells: seq<Text>, width: nat): (r: seq<Text>)
    ensures |r| == width && forall i :: 0 <= i < width ==> r[i] == Normal(Cell(cells, i))
  {
    seq(width, i requires 0 <= i < width => Normal(Cell(cells, i)))
  }

  lemma RowPieces(cells: seq<Text>, width: nat)
    ensures Pieces(RowText(cells, width))
         == [[]] + (if width == 0 then [[SPACE, SPACE]] else SpacedAll(NormalCells(cells, width))) + [[]]
  {
    hide EscapeMarkdownText, Normal;
    var escaped := EscapedCells(cells, width);
    assert RowText(cells, width) == [PIPE] + Inside(escaped);
    assert RowText(cells, width)[1..] == Inside(escaped);
    if width == 0 {
      assert Inside(escaped) == [SPACE, SPACE] + [PIPE];
      PlainStaysInside([SPACE, SPACE], [PIPE]);
      assert [PIPE][1..] == [] && Pieces([PIPE]) == [[], []];
      assert [SPACE, SPACE] + [] == [SPACE, SPACE];
    } else {
      forall i | 0 <= i < width ensures escaped[i] == Substituted(NormalCells(cells, width)[i]) {
        EscaperIsSubstitution(Cell(cells, i));
      }
      assert escaped == SubstitutedAll(NormalCells(cells, width));
      InsidePieces(NormalCells(cells, width));
    }
  }

  /** A cell as it stands between two bars. */
  predicate IsCell(piece: Text, value: Text) {
    && piece == [0x20] + EscapeMarkdownText(value) + [0x20]
    && Unescape(Trim(piece)) == Normal(value)
  }

  lemma CellReads(value: Text)
    ensures IsCell(Spaced(Substituted(Normal(value))), value)
  {
    NormalShape(value);
    EscaperIsSubstitution(value);
    EscapedShape(value);
    SpacedTrims(Substituted(Normal(value)));
    UnescapeSubstituted(Normal(value));
  }

  /**
   * A row begins and ends with a bar, and its bars cut it into exactly as many cells as there are headers; cell i is
   * the i-th source cell escaped between spaces, and unescapes to its normal form; a short row has empty cells. With
   * no header the row is two bars around two spaces, which scans as one cell: the count is right iff width > 0.
   */
  lemma RowScansBack(cells: seq<Text>, width: nat)
    ensures var p := Pieces(RowText(cells, width)); |p| >= 2 && p[0] == [] && p[|p| - 1] == []
    ensures |ScannedCells(RowText(cells, width))| == width <==> width > 0
    ensures width == 0 ==> ScannedCells(RowText(cells, width)) == [[0x20, 0x20]]
    ensures width > 0 ==> forall i :: 0 <= i < width ==>
      IsCell(ScannedCells(RowText(cells, width))[i], if i < |cells| then cells[i] else [])
  {
    hide RowText, Pieces, IsCell, Normal;
    RowPieces(cells, width);
    if width > 0 {
      var scanned := ScannedCells(RowText(cells, width));
      assert scanned == SpacedAll(NormalCells(cells, width));
      forall i | 0 <= i < width ensures IsCell(scanned[i], if i < |cells| then cells[i] else []) {
        CellReads(Cell(cells, i));
      }
    }
  }

  const RULE: Text := [DASH, DASH, DASH]

  function Repeated(t: Text, n: nat): (r: seq<Text>)
    ensures |r| == n && forall i :: 0 <= i < n ==> r[i] == t
  {
    seq(n, i => t)
  }

  lemma RuleIsPlain()
    ensures Substituted(RULE) == RULE
  {
    assert RULE[1..] == [DASH, DASH] && [DASH, DASH][1..] == [DASH] && [DASH][1..] == [];
    assert Substituted([DASH]) == [DASH] && Substituted([DASH, DASH]) == [DASH, DASH];
  }

  lemma RuleScans(width: nat)
    requires width > 0
    ensures ScannedCells(Bars(Repeated(RULE, width))) == Repeated(Spaced(RULE), width)
  {
    hide Escape, Join, Attach;
    var rules := Repeated(RULE, width);
    RuleIsPlain();
    assert rules == SubstitutedAll(rules);
    assert Bars(rules) == [PIPE] + Inside(rules);
    assert Bars(rules)[1..] == Inside(rules);
    InsidePieces(rules);
    assert SpacedAll(rules) == Repeated(Spaced(RULE), width);
  }

  /** What the lines of a table read back as: the headers, one rule for each of them, and each row cut or padded to them. */
  lemma TableScansBack(table: Table, i: nat, j: nat)
    requires i < |table.rows| && j < |table.headers|
    ensures var lines, width, row := TableLines(table), |table.headers|, table.rows[i];
      && |ScannedCells(lines[0])| == |ScannedCells(lines[1])| == |ScannedCells(lines[i + 2])| == width
      && IsCell(ScannedCells(lines[0])[j], table.headers[j])
      && ScannedCells(lines[1])[j] == [0x20, 0x2D, 0x2D, 0x2D, 0x20]
      && IsCell(ScannedCells(lines[i + 2])[j], if j < |row| then row[j] else [])
  {
    hide RowText, ScannedCells, IsCell, Bars;
    RowScansBack(table.headers, |table.headers|);
    RuleScans(|table.headers|);
    assert Spaced(RULE) == [0x20, 0x2D, 0x2D, 0x2D, 0x20];
    RowScansBack(table.rows[i], |table.headers|);
  }

  // ---- Blocks ----

  function BulletLines(bullets: seq<Text>): (lines: seq<Text>)
    ensures |lines| == |bullets|
  {
    seq(|bullets|, i requires 0 <= i < |bullets| => [DASH, SPACE] + EscapeMarkdownText(bullets[i]))
  }

  function Paragraphs(paragraphs: seq<Text>): (blocks: seq<Text>)
    ensures |blocks| == |paragraphs| && forall i :: 0 <= i < |blocks| ==> blocks[i] == EscapeMarkdownText(paragraphs[i])
  {
    seq(|paragraphs|, i requires 0 <= i < |paragraphs| => EscapeMarkdownText(paragraphs[i]))
  }

  function SectionBlocks(s: Section): seq<Text> {
    [[HASH, HASH, SPACE] + EscapeMarkdownText(s.heading)] + Paragraphs(s.paragraphs) + BulletBlock(s) + TableBlock(s)
  }

  function BulletBlock(s: Section): seq<Text> {
    if s.bullets != [] then [Join(BulletLines(s.bullets), [LF])] else []
  }

  function TableBlock(s: Section): seq<Text> {
    if s.table.Some? then [Join(TableLines(s.table.value), [LF])] else []
  }

  function SectionsBlocks(sections: seq<Section>): seq<Text> {
    if sections == [] then []
    else SectionsBlocks(sections[..|sections| - 1]) + SectionBlocks(sections[|sections| - 1])
  }

  function Blocks(doc: Doc): seq<Text> {
    [[HASH, SPACE] + EscapeMarkdownText(doc.title)]
    + (if doc.subtitle.Some? && doc.subtitle.value != [] then [EscapeMarkdownText(doc.subtitle.value)] else [])
    + SectionsBlocks(doc.sections)
  }

  function DocumentText(doc: Doc): Text {
    Join(Blocks(doc), [LF, LF]) + [LF]
  }

  lemma SectionsStep(sections: seq<Section>, i: nat)
    requires i < |sections|
    ensures SectionsBlocks(sections[..i + 1]) == SectionsBlocks(sections[..i]) + SectionBlocks(sections[i])
  {
    assert sections[..i + 1][..i] == sections[..i];
  }

  method PushParagraphs(before: seq<Text>, paragraphs: seq<Text>) returns (blocks: seq<Text>)
    ensures blocks == before + Paragraphs(paragraphs)
  {
    blocks := before;
    for i := 0 to |paragraphs|
      invariant blocks == before + Paragraphs(paragraphs)[..i]
    {
      TakeOneMore(Paragraphs(paragraphs), i);
      AppendAssociates(before, Paragraphs(paragraphs)[..i], [Paragraphs(paragraphs)[i]]);
      blocks := blocks + [EscapeMarkdownText(paragraphs[i])];
    }
  }

  /** The inner part of the source's loop over sections. */
  method PushSection(before: seq<Text>, section: Section) returns (blocks: seq<Text>)
    ensures blocks == before + SectionBlocks(section)
  {
    var heading := [HASH, HASH, SPACE] + EscapeMarkdownText(section.heading);
    blocks := PushParagraphs(before + [heading], section.paragraphs);
    ghost var pushed := [heading] + Paragraphs(section.paragraphs);
    AppendAssociates(before, [heading], Paragraphs(section.paragraphs));
    if |section.bullets| > 0 {
      AppendAssociates(before, pushed, [Join(BulletLines(section.bullets), [LF])]);
      blocks := blocks + [Join(BulletLines(section.bullets), [LF])];
      pushed := pushed + [Join(BulletLines(section.bullets), [LF])];
    } else {
      assert pushed + [] == pushed;
    }
    if section.table.Some? {
      AppendAssociates(before, pushed, [Join(TableLines(section.table.value), [LF])]);
      blocks := blocks + [Join(TableLines(section.table.value), [LF])];
      pushed := pushed + [Join(TableLines(section.table.value), [LF])];
    } else {
      assert pushed + [] == pushed;
    }
    assert pushed == SectionBlocks(section);
  }

  /** Blocks are pushed in order, then joined by blank lines. */
  method RenderMarkdown(doc: Doc) returns (text: Text)
    ensures text == DocumentText(doc)
  {
    var blocks := [[HASH, SPACE] + EscapeMarkdownText(doc.title)];
    if doc.subtitle.Some? && doc.subtitle.value != [] {
      blocks := blocks + [EscapeMarkdownText(doc.subtitle.value)];
    }
    ghost var head := blocks;
    for i := 0 to |doc.sections|
      invariant blocks == head + SectionsBlocks(doc.sections[..i])
    {
      blocks := PushSection(blocks, doc.sections[i]);
      SectionsStep(doc.sections, i);
      AppendAssociates(head, SectionsBlocks(doc.sections[..i]), SectionBlocks(doc.sections[i]));
    }
    assert doc.sections[..|doc.sections|] == doc.sections;
    text := Join(blocks, [LF, LF]) + [LF];
  }

  /** Splitting at a separator of LFs, leftmost first. */
  function Split(t: Text, separator: Text): (r: seq<Text>)
    requires separator != []
    ensures r != []
  {
    if t == [] then [[]]
    else if separator <= t then [[]] + Split(t[|separator|..], separator)
    else Attach([t[0]], Split(t[1..], separator))
  }

  /** No blank line inside, and no newline at the end to make one with what follows. */
  predicate OneBlock(b: Text) {
    && (forall i :: 0 <= i < |b| - 1 ==> b[i] != LF || b[i + 1] != LF)
    && (b != [] ==> b[|b| - 1] != LF)
  }

  predicate OneLine(b: Text) {
    forall i :: 0 <= i < |b| ==> b[i] != LF
  }

  lemma {:induction false} SplitBlock(b: Text, rest: Text)
    requires OneBlock(b)
    ensures Split(b + [LF, LF] + rest, [LF, LF]) == [b] + Split(rest, [LF, LF])
    ensures Split(b, [LF, LF]) == [b]
  {
    var t := b + [LF, LF] + rest;
    if b == [] {
      assert t[..2] == [LF, LF] && t[2..] == rest;
    } else {
      assert t[1..] == b[1..] + [LF, LF] + rest;
      assert t[0] == b[0] && (|b| >= 2 ==> t[1] == b[1]);
      forall i | 0 <= i < |b[1..]| - 1 ensures b[1..][i] != LF || b[1..][i + 1] != LF {
        assert b[1..][i] == b[i + 1] && b[1..][i + 1] == b[i + 2];
      }
      SplitBlock(b[1..], rest);
      assert [b[0]] + b[1..] == b;
    }
  }

  lemma {:induction false} SplitLine(b: Text, rest: Text)
    requires OneLine(b)
    ensures Split(b + [LF] + rest, [LF]) == [b] + Split(rest, [LF])
    ensures Split(b, [LF]) == [b]
  {
    var t := b + [LF] + rest;
    if b == [] {
      assert t[..1] == [LF] && t[1..] == rest;
    } else {
      assert t[1..] == b[1..] + [LF] + rest;
      SplitLine(b[1..], rest);
      assert [b[0]] + b[1..] == b;
    }
  }

  lemma {:induction false} SplitJoinedBlocks(blocks: seq<Text>)
    requires blocks != [] && forall i :: 0 <= i < |blocks| ==> OneBlock(blocks[i])
    ensures Split(Join(blocks, [LF, LF]), [LF, LF]) == blocks
  {
    SplitBlock(blocks[0], Join(blocks[1..], [LF, LF]));
    if |blocks| > 1 {
      SplitJoinedBlocks(blocks[1..]);
    }
  }

  lemma {:induction false} SplitJoinedLines(lines: seq<Text>)
    requires lines != [] && forall i :: 0 <= i < |lines| ==> OneLine(lines[i])
    ensures Split(Join(lines, [LF]), [LF]) == lines
  {
    SplitLine(lines[0], Join(lines[1..], [LF]));
    if |lines| > 1 {
      SplitJoinedLines(lines[1..]);
    }
  }

  /** Lines that are neither empty nor broken make one block. */
  lemma {:induction false} LinesMakeBlock(lines: seq<Text>)
    requires lines != [] && forall i :: 0 <= i < |lines| ==> OneLine(lines[i]) && lines[i] != []
    ensures OneBlock(Join(lines, [LF])) && Join(lines, [LF]) != [] && Join(lines, [LF])[0] != LF
  {
    if |lines| > 1 {
      LinesMakeBlock(lines[1..]);
      var rest := Join(lines[1..], [LF]);
      var all := lines[0] + [LF] + rest;
      forall i | 0 <= i < |all| - 1 ensures all[i] != LF || all[i + 1] != LF {
        if i > |lines[0]| {
          assert all[i] == rest[i - |lines[0]| - 1] && all[i + 1] == rest[i - |lines[0]|];
        }
      }
    }
  }

  lemma EscapedIsOneLine(value: Text)
    ensures OneLine(EscapeMarkdownText(value))
  {
    EscapedShape(value);
    assert forall i :: 0 <= i < |EscapeMarkdownText(value)| ==> Harmless(EscapeMarkdownText(value)[i]);
  }

  lemma {:induction false} JoinedIsOneLine(cells: seq<Text>)
    requires forall i :: 0 <= i < |cells| ==> OneLine(cells[i])
    ensures OneLine(Join(cells, [SPACE, PIPE, SPACE]))
  {
    if |cells| > 1 {
      JoinedIsOneLine(cells[1..]);
    }
  }

  lemma RowIsOneLine(cells: seq<Text>, width: nat)
    ensures OneLine(RowText(cells, width)) && RowText(cells, width) != []
  {
    forall i | 0 <= i < width ensures OneLine(EscapedCells(cells, width)[i]) {
      EscapedIsOneLine(Cell(cells, i));
    }
    JoinedIsOneLine(EscapedCells(cells, width));
  }

  /** A table is exactly 2 + rows lines: the header, the rule, and one for each row. */
  lemma TableIsItsLines(table: Table)
    ensures Split(Join(TableLines(table), [LF]), [LF]) == TableLines(table)
    ensures |TableLines(table)| == 2 + |table.rows|
    ensures OneBlock(Join(TableLines(table), [LF]))
  {
    forall i: nat | i < |TableLines(table)| ensures OneLine(TableLines(table)[i]) && TableLines(table)[i] != [] {
      TableLineIsOneLine(table, i);
    }
    SplitJoinedLines(TableLines(table));
    LinesMakeBlock(TableLines(table));
  }

  lemma TableLineIsOneLine(table: Table, i: nat)
    requires i < |TableLines(table)|
    ensures OneLine(TableLines(table)[i]) && TableLines(table)[i] != []
  {
    hide RowText;
    if i == 0 {
      RowIsOneLine(table.headers, |table.headers|);
    } else if i == 1 {
      JoinedIsOneLine(Repeated(RULE, |table.headers|));
    } else {
      RowIsOneLine(table.rows[i - 2], |table.headers|);
    }
  }

  lemma PrefixedIsOneBlock(prefix: Text, value: Text)
    requires OneLine(prefix)
    ensures OneBlock(prefix + EscapeMarkdownText(value))
  {
    EscapedIsOneLine(value);
  }

  lemma ParagraphsAreBlocks(paragraphs: seq<Text>)
    ensures forall i :: 0 <= i < |paragraphs| ==> OneBlock(Paragraphs(paragraphs)[i])
  {
    forall i | 0 <= i < |paragraphs| ensures OneBlock(Paragraphs(paragraphs)[i]) {
      EscapedIsOneLine(paragraphs[i]);
    }
  }

  lemma BulletsMakeBlock(bullets: seq<Text>)
    requires bullets != []
    ensures OneBlock(Join(BulletLines(bullets), [LF]))
  {
    forall i | 0 <= i < |bullets| ensures OneLine(BulletLines(bullets)[i]) {
      EscapedIsOneLine(bullets[i]);
    }
    LinesMakeBlock(BulletLines(bullets));
  }

  lemma SectionBlocksAreBlocks(s: Section)
    ensures forall i :: 0 <= i < |SectionBlocks(s)| ==> OneBlock(SectionBlocks(s)[i])
  {
    hide EscapeMarkdownText, Join, Split, TableLines;
    var heading := [HASH, HASH, SPACE] + EscapeMarkdownText(s.heading);
    InOneOfFour([heading], Paragraphs(s.paragraphs), BulletBlock(s), TableBlock(s));
    PrefixedIsOneBlock([HASH, HASH, SPACE], s.heading);
    ParagraphsAreBlocks(s.paragraphs);
    if s.bullets != [] {
      BulletsMakeBlock(s.bullets);
    }
    if s.table.Some? {
      TableIsItsLines(s.table.value);
    }
    forall i | 0 <= i < |SectionBlocks(s)| ensures OneBlock(SectionBlocks(s)[i]) {
      assert SectionBlocks(s)[i] in SectionBlocks(s);
    }
  }

  lemma {:induction false} SectionsBlocksAreBlocks(sections: seq<Section>)
    ensures forall i :: 0 <= i < |SectionsBlocks(sections)| ==> OneBlock(SectionsBlocks(sections)[i])
  {
    if sections != [] {
      SectionsBlocksAreBlocks(sections[..|sections| - 1]);
      SectionBlocksAreBlocks(sections[|sections| - 1]);
    }
  }

  lemma BlocksAreBlocks(doc: Doc)
    ensures forall i :: 0 <= i < |Blocks(doc)| ==> OneBlock(Blocks(doc)[i])
  {
    hide EscapeMarkdownText, SectionsBlocks;
    PrefixedIsOneBlock([HASH, SPACE], doc.title);
    if doc.subtitle.Some? {
      EscapedIsOneLine(doc.subtitle.value);
    }
    SectionsBlocksAreBlocks(doc.sections);
  }

  /**
   * The document but for its final newline, split at blank lines, is exactly its blocks: whatever the values hold,
   * none of them opens a block, closes one or runs into the next.
   */
  lemma DocumentIsItsBlocks(doc: Doc)
    ensures var t := DocumentText(doc); t != [] && t[|t| - 1] == LF && Split(t[..|t| - 1], [LF, LF]) == Blocks(doc)
  {
    BlocksAreBlocks(doc);
    SplitJoinedBlocks(Blocks(doc));
    var joined := Join(Blocks(doc), [LF, LF]);
    assert (joined + [LF])[..|joined|] == joined;
  }

  // ---- Reading the document ----

  /** How many blocks a section makes. */
  function SizeOf(s: Section): nat {
    1 + |s.paragraphs| + (if s.bullets != [] then 1 else 0) + (if s.table.Some? then 1 else 0)
  }

  function StartOf(sections: seq<Section>, i: nat): nat
    requires i <= |sections|
  {
    if i == 0 then 0 else StartOf(sections, i - 1) + SizeOf(sections[i - 1])
  }

  /** From `at` on the blocks are the section's: heading, paragraphs, bullets one to a line, and the table's lines. */
  predicate SectionReads(blocks: seq<Text>, at: nat, s: Section) {
    && at + SizeOf(s) <= |blocks|
    && blocks[at] == [0x23, 0x23, 0x20] + EscapeMarkdownText(s.heading)
    && (forall j :: 0 <= j < |s.paragraphs| ==> blocks[at + 1 + j] == EscapeMarkdownText(s.paragraphs[j]))
    && (s.bullets != [] ==> BulletsRead(blocks[at + 1 + |s.paragraphs|], s.bullets))
    && (s.table.Some? ==> Split(blocks[at + SizeOf(s) - 1], [0x0A]) == TableLines(s.table.value))
  }

  predicate BulletsRead(block: Text, bullets: seq<Text>) {
    var lines := Split(block, [0x0A]);
    && |lines| == |bullets|
    && forall k :: 0 <= k < |lines| ==> lines[k] == [0x2D, 0x20] + EscapeMarkdownText(bullets[k])
  }

  lemma BulletsReadBack(bullets: seq<Text>)
    requires bullets != []
    ensures BulletsRead(Join(BulletLines(bullets), [LF]), bullets)
  {
    hide EscapeMarkdownText;
    forall i | 0 <= i < |bullets| ensures OneLine(BulletLines(bullets)[i]) {
      EscapedIsOneLine(bullets[i]);
    }
    SplitJoinedLines(BulletLines(bullets));
  }

  lemma SectionReadsBack(s: Section)
    ensures |SectionBlocks(s)| == SizeOf(s) && SectionReads(SectionBlocks(s), 0, s)
  {
    hide EscapeMarkdownText, Split, Join, TableLines, BulletLines;
    if s.bullets != [] {
      BulletsReadBack(s.bullets);
    }
    if s.table.Some? {
      TableIsItsLines(s.table.value);
    }
  }

  lemma ReadsInside(before: seq<Text>, blocks: seq<Text>, after: seq<Text>, s: Section)
    requires SectionReads(blocks, 0, s)
    ensures SectionReads(before + blocks + after, |before|, s)
  {
    hide EscapeMarkdownText, Split, TableLines, BulletsRead;
    var all := before + blocks + after;
    assert forall k :: 0 <= k < |blocks| ==> all[|before| + k] == blocks[k];
  }

  lemma {:induction false} SectionsReadBack(sections: seq<Section>, i: nat)
    requires i < |sections|
    ensures |SectionsBlocks(sections)| == StartOf(sections, |sections|)
    ensures SectionReads(SectionsBlocks(sections), StartOf(sections, i), sections[i])
  {
    hide SectionReads, SectionBlocks;
    var n := |sections| - 1;
    var before, last := sections[..n], SectionBlocks(sections[n]);
    SectionReadsBack(sections[n]);
    StartsAgree(before, [sections[n]], n);
    assert before + [sections[n]] == sections;
    if n == 0 {
      ReadsInside([], last, [], sections[n]);
      assert [] + last + [] == last == SectionsBlocks(sections);
    } else {
      SectionsReadBack(before, if i < n then i else 0);
      if i == n {
        ReadsInside(SectionsBlocks(before), last, [], sections[n]);
        assert SectionsBlocks(before) + last + [] == SectionsBlocks(sections);
      } else {
        StartsAgree(before, [sections[n]], i);
        ReadsOn(SectionsBlocks(before), last, StartOf(before, i), sections[i]);
      }
    }
  }

  lemma ReadsOn(blocks: seq<Text>, after: seq<Text>, at: nat, s: Section)
    requires SectionReads(blocks, at, s)
    ensures SectionReads(blocks + after, at, s)
  {
    hide EscapeMarkdownText, Split, TableLines, BulletsRead;
  }

  lemma {:induction false} StartsAgree(before: seq<Section>, after: seq<Section>, i: nat)
    requires i <= |before|
    ensures StartOf(before + after, i) == StartOf(before, i)
  {
    if i > 0 {
      StartsAgree(before, after, i - 1);
    }
  }

  /** The blocks of a document are its title, its subtitle if it has one, and its sections, in order. */
  predicate DocumentReads(blocks: seq<Text>, doc: Doc) {
    var head := if doc.subtitle.Some? && doc.subtitle.value != [] then 2 else 1;
    && |blocks| == head + StartOf(doc.sections, |doc.sections|)
    && blocks[0] == [0x23, 0x20] + EscapeMarkdownText(doc.title)
    && (head == 2 ==> blocks[1] == EscapeMarkdownText(doc.subtitle.value))
    && forall i: nat :: i < |doc.sections| ==> SectionReads(blocks, head + StartOf(doc.sections, i), doc.sections[i])
  }

  lemma ReadsBehind(head: seq<Text>, blocks: seq<Text>, at: nat, s: Section)
    requires SectionReads(blocks, at, s)
    ensures SectionReads(head + blocks, |head| + at, s)
  {
    hide EscapeMarkdownText, Split, TableLines, BulletsRead;
    assert forall k :: 0 <= k < |blocks| ==> (head + blocks)[|head| + k] == blocks[k];
  }

  /** The text but for its final newline, split at blank lines, reads back as the document, value by value. */
  lemma DocumentReadsBack(doc: Doc)
    ensures var t := DocumentText(doc);
      t != [] && t[|t| - 1] == 0x0A && DocumentReads(Split(t[..|t| - 1], [0x0A, 0x0A]), doc)
  {
    DocumentIsItsBlocks(doc);
    BlocksRead(doc);
  }

  /** The blocks before the first section. */
  function Head(doc: Doc): (r: seq<Text>)
    ensures |r| == (if doc.subtitle.Some? && doc.subtitle.value != [] then 2 else 1)
    ensures r[0] == [0x23, 0x20] + EscapeMarkdownText(doc.title)
    ensures |r| == 2 ==> r[1] == EscapeMarkdownText(doc.subtitle.value)
  {
    [[HASH, SPACE] + EscapeMarkdownText(doc.title)]
    + (if doc.subtitle.Some? && doc.subtitle.value != [] then [EscapeMarkdownText(doc.subtitle.value)] else [])
  }

  lemma SectionsReadBehind(head: seq<Text>, sections: seq<Section>, i: nat)
    requires i < |sections|
    ensures SectionReads(head + SectionsBlocks(sections), |head| + StartOf(sections, i), sections[i])
  {
    hide SectionReads, SectionsBlocks, StartOf;
    SectionsReadBack(sections, i);
    ReadsBehind(head, SectionsBlocks(sections), StartOf(sections, i), sections[i]);
  }

  lemma BlocksRead(doc: Doc)
    ensures DocumentReads(Blocks(doc), doc)
  {
    hide EscapeMarkdownText, SectionReads, SectionsBlocks, Head, Blocks, StartOf;
    HeadThenSections(doc);
    SectionsSize(doc.sections);
    var head, blocks := Head(doc), Blocks(doc);
    assert blocks[0] == head[0] && (|head| == 2 ==> blocks[1] == head[1]);
    forall i: nat | i < |doc.sections| ensures SectionReads(blocks, |head| + StartOf(doc.sections, i), doc.sections[i]) {
      SectionsReadBehind(head, doc.sections, i);
    }
  }

  lemma HeadThenSections(doc: Doc)
    ensures Blocks(doc) == Head(doc) + SectionsBlocks(doc.sections)
  {
    hide EscapeMarkdownText, SectionsBlocks;
  }

  lemma SectionsSize(sections: seq<Section>)
    ensures |SectionsBlocks(sections)| == StartOf(sections, |sections|)
  {
    hide SectionReads, SectionBlocks;
    if sections != [] {
      SectionsReadBack(sections, 0);
    }
  }

  // ---- The end of the document ----

  /** The last value written is a subtitle or a paragraph of white space only, no longer than the cap. */
  predicate BlankAtEnd(doc: Doc) {
    if doc.sections == [] then doc.subtitle.Some? && doc.subtitle.value != [] && Blank(doc.subtitle.value)
    else EndsBlank(doc.sections[|doc.sections| - 1])
  }

  predicate EndsBlank(s: Section) {
    s.bullets == [] && s.table.None? && s.paragraphs != [] && Blank(s.paragraphs[|s.paragraphs| - 1])
  }

  lemma LastSectionBlock(s: Section)
    ensures SectionBlocks(s) != []
    ensures SectionBlocks(s)[|SectionBlocks(s)| - 1] == LastPart(s)
    ensures LastPart(s) == [] <==> EndsBlank(s)
  {
    var heading := [HASH, HASH, SPACE] + EscapeMarkdownText(s.heading);
    LastOfFour([heading], Paragraphs(s.paragraphs), BulletBlock(s), TableBlock(s));
    LastPartIsBlank(s);
  }

  function LastPart(s: Section): Text {
    if s.table.Some? then Join(TableLines(s.table.value), [LF])
    else if s.bullets != [] then Join(BulletLines(s.bullets), [LF])
    else if s.paragraphs != [] then EscapeMarkdownText(s.paragraphs[|s.paragraphs| - 1])
    else [HASH, HASH, SPACE] + EscapeMarkdownText(s.heading)
  }

  lemma LastPartIsBlank(s: Section)
    ensures LastPart(s) == [] <==> EndsBlank(s)
  {
    if s.table.Some? {
      TableIsNotBlank(s.table.value);
    } else if s.bullets != [] {
      BulletsAreNotBlank(s.bullets);
    } else if s.paragraphs != [] {
      EscapedIsBlank(s.paragraphs[|s.paragraphs| - 1]);
    }
  }

  lemma TableIsNotBlank(table: Table)
    ensures Join(TableLines(table), [LF]) != []
  {
    RowIsOneLine(table.headers, |table.headers|);
  }

  lemma BulletsAreNotBlank(bullets: seq<Text>)
    requires bullets != []
    ensures Join(BulletLines(bullets), [LF]) != []
  {
    assert BulletLines(bullets)[0][0] == DASH;
  }

  lemma LastBlock(doc: Doc)
    ensures Blocks(doc) != [] && (Blocks(doc)[|Blocks(doc)| - 1] == [] <==> BlankAtEnd(doc))
  {
    hide EscapeMarkdownText;
    if doc.sections != [] {
      LastSectionBlock(doc.sections[|doc.sections| - 1]);
    } else if doc.subtitle.Some? && doc.subtitle.value != [] {
      EscapedIsBlank(doc.subtitle.value);
    }
  }

  lemma {:induction false} JoinEnds(blocks: seq<Text>)
    requires blocks != [] && OneBlock(blocks[|blocks| - 1]) && (|blocks| == 1 ==> blocks[0] != [])
    ensures var t := Join(blocks, [LF, LF]);
      t != [] && (t[|t| - 1] == LF <==> blocks[|blocks| - 1] == [])
  {
    if |blocks| == 2 && blocks[1] == [] {
      assert Join(blocks[1..], [LF, LF]) == [];
    } else if |blocks| > 1 {
      JoinEnds(blocks[1..]);
    }
  }

  /** The text ends in a newline, and in no more than one exactly when its last value is not blank. */
  lemma EndsInOneNewline(doc: Doc)
    ensures var t := DocumentText(doc);
      && t[|t| - 1] == LF
      && (|t| >= 2 && t[|t| - 2] != LF <==> !BlankAtEnd(doc))
  {
    hide SectionsBlocks, EscapeMarkdownText;
    LastBlock(doc);
    BlocksAreBlocks(doc);
    JoinEnds(Blocks(doc));
  }

  /** A subtitle that is a newline and nothing else leaves an empty block, and the document ends in three. */
  lemma BlankSubtitleEndsInThree(title: Text)
    ensures var blank := Doc(title, Some([LF]), []);
      var t := DocumentText(blank);
      BlankAtEnd(blank) && |t| >= 3 && t[|t| - 3..] == [LF, LF, LF]
  {
    hide EscapeMarkdownText;
    var blank := Doc(title, Some([LF]), []);
    EscapedIsBlank([LF]);
    var heading := [HASH, SPACE] + EscapeMarkdownText(title);
    assert Blocks(blank) == [heading, []];
    assert Join([heading, []], [LF, LF]) == heading + [LF, LF] by { assert [heading, []][1..] == [[]]; }
  }
}
