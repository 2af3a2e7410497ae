/** Replacing the marked block of host lines inside a text file. */
module Inventory {
  import opened Lines
  import opened Substrings

  const INVENTORY_BEGIN: string := "# Inventory Begin"
  const INVENTORY_END: string := "# Inventory End"

  predicate Begins(line: string) {
    Contains(line, INVENTORY_BEGIN)
  }

  predicate Ends(line: string) {
    Contains(line, INVENTORY_END)
  }

  /** A marker found in a line is found in the text. */
  lemma {:induction false} LineInText(text: string, sub: string, k: nat)
    requires k < |Split(text)| && Contains(Split(text)[k], sub)
    ensures Contains(text, sub)
    decreases |text|
  {
    hide At;
    var line := Split(text)[k];
    var i :| 0 <= i <= |line| && At(line, i, sub);
    LineAt(text, sub, k, i);
  }

  lemma {:induction false} LineAt(text: string, sub: string, k: nat, i: nat)
    requires k < |Split(text)| && At(Split(text)[k], i, sub)
    ensures exists j :: 0 <= j <= |text| && At(text, j, sub)
    decreases |text|
  {
    if k == 0 {
      FirstLine(text);
      assert text[i..i + |sub|] == Split(text)[0][i..i + |sub|];
      assert At(text, i, sub);
    } else {
      LineAt(text[1..], sub, if text[0] == '\n' then k - 1 else k, i);
      var j :| 0 <= j <= |text[1..]| && At(text[1..], j, sub);
      assert text[1..][j..j + |sub|] == text[j + 1..j + 1 + |sub|];
      assert At(text, j + 1, sub);
    }
  }

  lemma {:induction false} FirstLine(text: string)
    ensures Split(text)[0] <= text
    decreases |text|
  {
    if text != "" {
      FirstLine(text[1..]);
    }
  }

  // ---------- what an update writes ----------

  datatype Piece = Line(text: string) | Block

  /** The first line that ends a block, or the number of lines. */
  function EndAt(lines: seq<string>): (e: nat)
    ensures e <= |lines|
  {
    if lines == [] || Ends(lines[0]) then 0 else 1 + EndAt(lines[1..])
  }

  /**
   * What the loop writes for these lines: lines in front of a begin marker are copied; from a begin marker to its end
   * marker the new block is written, and the line after the end marker is passed over; without an end marker the rest
   * is lost.
   */
  function Pieces(lines: seq<string>): seq<Piece>
    decreases |lines|
  {
    if lines == [] then []
    else if !Begins(lines[0]) then [Line(lines[0])] + Pieces(lines[1..])
    else
      var e := EndAt(lines);
      if e == |lines| then [] else [Block] + (if e + 2 <= |lines| then Pieces(lines[e + 2..]) else [])
  }

  predicate Present(lines: seq<string>) {
    exists i :: 0 <= i < |lines| && Begins(lines[i])
  }

  /** Without a begin marker the block goes to the end. */
  function Plan(lines: seq<string>): seq<Piece> {
    Pieces(lines) + if Present(lines) then [] else [Block]
  }

  function Render(pieces: seq<Piece>, block: string): string {
    if pieces == [] then ""
    else (if pieces[0].Block? then block else pieces[0].text + "\n") + Render(pieces[1..], block)
  }

  /** The file after an update. */
  function Updated(text: string, block: string): string {
    Render(Plan(Split(text)), block)
  }

  lemma {:induction false} RenderAppend(a: seq<Piece>, b: seq<Piece>, block: string)
    ensures Render(a + b, block) == Render(a, block) + Render(b, block)
    decreases |a|
  {
    if a == [] {
      assert a + b == b;
    } else {
      RenderAppend(a[1..], b, block);
      assert (a + b)[1..] == a[1..] + b;
    }
  }

  lemma {:induction false} RenderOne(piece: Piece, block: string)
    ensures Render([piece], block) == if piece.Block? then block else piece.text + "\n"
  {
    assert [piece][1..] == [];
  }

  // ---------- the loop ----------

  /** From a begin marker on: pass over the lines up to the end marker, and say whether there is one. */
  method PassBlock(template: seq<string>, from: nat) returns (index: nat, found: bool)
    requires from < |template|
    ensures found == (EndAt(template[from..]) < |template| - from)
    ensures index == if found then from + EndAt(template[from..]) + 1 else |template|
  {
    index, found := from, false;
    for i := from to |template|
      invariant index == i && !found
      invariant EndAt(template[from..]) == i - from + EndAt(template[i..])
    {
      index := index + 1;
      assert template[i..][1..] == template[i + 1..];
      if Ends(template[i]) {
        found := true;
        break;
      }
    }
    assert template[|template|..] == [];
  }

  /** What is left to write from a line number on. */
  function Remaining(template: seq<string>, index: nat, block: string): string {
    if index < |template| then Render(Pieces(template[index..]), block) else ""
  }

  lemma {:induction false} RemainingStep(template: seq<string>, index: nat, block: string)
    requires index < |template|
    ensures var line, e := template[index], EndAt(template[index..]);
      Remaining(template, index, block)
      == if !Begins(line) then line + "\n" + Remaining(template, index + 1, block)
         else if index + e == |template| then ""
         else block + Remaining(template, index + e + 2, block)
  {
    hide Begins, EndAt, Render, Pieces;
    var rest := template[index..];
    var e := EndAt(rest);
    assert rest[1..] == template[index + 1..];
    if !Begins(rest[0]) {
      PiecesCopy(rest);
      RenderAppend([Line(rest[0])], Pieces(rest[1..]), block);
      RenderOne(Line(rest[0]), block);
      RenderNothing(block);
    } else {
      PiecesBlock(rest);
      RenderNothing(block);
      if e < |rest| {
        var more := if e + 2 <= |rest| then Pieces(rest[e + 2..]) else [];
        RenderAppend([Block], more, block);
        RenderOne(Block, block);
        if e + 2 <= |rest| {
          assert rest[e + 2..] == template[index + e + 2..];
        }
        if e + 2 == |rest| {
          assert rest[e + 2..] == [];
        }
      }
    }
  }

  lemma {:induction false} RenderNothing(block: string)
    ensures Render(Pieces([]), block) == "" && Render([], block) == ""
  {
  }

  lemma {:induction false} PiecesCopy(lines: seq<string>)
    requires lines != [] && !Begins(lines[0])
    ensures Pieces(lines) == [Line(lines[0])] + Pieces(lines[1..])
  {
    hide Begins;
  }

  lemma {:induction false} PiecesBlock(lines: seq<string>)
    requires lines != [] && Begins(lines[0])
    ensures var e := EndAt(lines);
      Pieces(lines) == if e == |lines| then [] else [Block] + if e + 2 <= |lines| then Pieces(lines[e + 2..]) else []
  {
    hide Begins, EndAt;
  }

  /** No begin marker among the first lines. */
  ghost predicate NoneBefore(template: seq<string>, index: nat) {
    forall i :: 0 <= i < index && i < |template| ==> !Begins(template[i])
  }

  lemma {:induction false} RemainingInAll(template: seq<string>, present: bool, block: string)
    requires present == Present(template)
    ensures Render(Plan(template), block) == Remaining(template, 0, block) + if present then "" else block
  {
    hide Present, Begins, Pieces, Render;
    assert template[0..] == template;
    RenderNothing(block);
    RenderOne(Block, block);
    RenderAppend(Pieces(template), if present then [] else [Block], block);
    if template == [] {
      assert Remaining(template, 0, block) == Render(Pieces([]), block);
    }
  }

  /** The loop over the lines of the file. */
  method UpdateFile(text: string, block: string) returns (updated: string)
    ensures updated == Updated(text, block)
  {
    hide Begins, EndAt, Remaining, Plan, Render, Present;
    var template := Split(text);
    updated := "";
    var index, present := 0, false;
    while index < |template|
      invariant updated + Remaining(template, index, block) == Remaining(template, 0, block)
      invariant if present then Present(template) else NoneBefore(template, index)
      decreases |template| - index
    {
      var line := template[index];
      RemainingStep(template, index, block);
      if !Begins(line) {
        Associate(updated, line + "\n", Remaining(template, index + 1, block));
        updated := updated + (line + "\n");
      } else {
        BeginIsPresent(template, index);
        present := true;
        var found;
        index, found := PassBlock(template, index);
        NothingRemains(template, |template| + 1, block);
        if found {
          Associate(updated, block, Remaining(template, index + 1, block));
          updated := updated + block;
        }
      }
      index := index + 1;
    }
    NothingRemains(template, index, block);
    NoneIsPresent(template, index);
    RemainingInAll(template, present, block);
    if !present {
      updated := updated + block;
    }
  }

  lemma {:induction false} Associate(a: string, b: string, c: string)
    ensures a + b + c == a + (b + c)
  {
  }

  lemma {:induction false} BeginIsPresent(template: seq<string>, index: nat)
    requires index < |template| && Begins(template[index])
    ensures Present(template)
  {
    hide Begins;
  }

  lemma {:induction false} NoneIsPresent(template: seq<string>, index: nat)
    ensures index >= |template| && NoneBefore(template, index) ==> !Present(template)
  {
    hide Begins;
  }

  lemma {:induction false} NothingRemains(template: seq<string>, index: nat, block: string)
    ensures index >= |template| ==> Remaining(template, index, block) == ""
  {
  }

  // ---------- blocks ----------

  /** A block as its lines: opened and closed by the markers, with no end marker between them. */
  ghost predicate IsBlock(block: seq<string>) {
    && |block| >= 2 && AreLines(block)
    && block[0] == INVENTORY_BEGIN && block[|block| - 1] == INVENTORY_END
    && forall i :: 0 < i < |block| - 1 ==> !Ends(block[i])
  }

  /** A block that also has no begin marker between its ends. */
  ghost predicate IsPlainBlock(block: seq<string>) {
    IsBlock(block) && forall i :: 0 < i < |block| - 1 ==> !Begins(block[i])
  }

  lemma {:induction false} Markers()
    ensures Begins(INVENTORY_BEGIN) && !Ends(INVENTORY_BEGIN)
    ensures Ends(INVENTORY_END) && !Begins(INVENTORY_END)
    ensures OneLine(INVENTORY_BEGIN) && OneLine(INVENTORY_END)
  {
    assert At(INVENTORY_BEGIN, 0, INVENTORY_BEGIN) && At(INVENTORY_END, 0, INVENTORY_END);
    forall i | 0 <= i <= |INVENTORY_BEGIN| ensures !At(INVENTORY_BEGIN, i, INVENTORY_END) {
      if i <= 2 {
        assert INVENTORY_BEGIN[i..i + 15][12 - i] == INVENTORY_BEGIN[12];
      }
    }
  }

  function HostLine(host: (string, string)): string {
    host.1 + " " + host.0
  }

  /** A line of the block as a resolver reads it: the address, then the name. */
  lemma {:induction false} HostLineWords(name: string, address: string)
    requires IsWord(name) && IsWord(address)
    ensures Words(HostLine((name, address))) == [address, name]
  {
    WordsConcat(address, ' ', name);
    WordsOfWord(address);
    WordsOfWord(name);
    assert address + [' '] + name == HostLine((name, address));
  }

  function HostLines(hosts: seq<(string, string)>): seq<string> {
    seq(|hosts|, i requires 0 <= i < |hosts| => HostLine(hosts[i]))
  }

  function HostsBlock(hosts: seq<(string, string)>): seq<string> {
    [INVENTORY_BEGIN] + HostLines(hosts) + [INVENTORY_END]
  }

  /** The block of host lines as it is built: a name and its address per line, between the markers. */
  method CreateHostsFileStr(hosts: seq<(string, string)>) returns (s: string)
    ensures s == Text(HostsBlock(hosts))
  {
    s := INVENTORY_BEGIN + "\n";
    TextAppend([INVENTORY_BEGIN], []);
    assert [INVENTORY_BEGIN] + HostLines(hosts)[..0] == [INVENTORY_BEGIN];
    for i := 0 to |hosts|
      invariant s == Text([INVENTORY_BEGIN] + HostLines(hosts)[..i])
    {
      var (host, ip) := hosts[i];
      var done := [INVENTORY_BEGIN] + HostLines(hosts)[..i];
      TextAppend(done, [HostLine(hosts[i])]);
      assert [INVENTORY_BEGIN] + HostLines(hosts)[..i + 1] == done + [HostLine(hosts[i])];
      assert Text([HostLine(hosts[i])]) == ip + " " + host + "\n" by {
        assert [HostLine(hosts[i])][1..] == [];
      }
      s := s + (ip + " " + host + "\n");
    }
    assert HostLines(hosts)[..|hosts|] == HostLines(hosts);
    TextAppend([INVENTORY_BEGIN] + HostLines(hosts), [INVENTORY_END]);
    assert [INVENTORY_END][1..] == [];
    s := s + INVENTORY_END + "\n";
  }

  /** The file of hosts after a deployment. */
  method UpdateEtcHostsFile(text: string, hosts: seq<(string, string)>) returns (updated: string)
    ensures updated == Updated(text, Text(HostsBlock(hosts)))
  {
    var hostStr := CreateHostsFileStr(hosts);
    updated := UpdateFile(text, hostStr);
  }

  /** Host lines that are single lines without markers make a well-formed block. */
  lemma {:induction false} HostsBlockIsBlock(hosts: seq<(string, string)>)
    requires forall i :: 0 <= i < |hosts| ==>
               OneLine(HostLine(hosts[i])) && !Ends(HostLine(hosts[i])) && !Begins(HostLine(hosts[i]))
    ensures IsPlainBlock(HostsBlock(hosts))
  {
    hide Begins, Ends, HostLine;
    Markers();
    var block := HostsBlock(hosts);
    forall i | 0 < i < |block| - 1 ensures block[i] == HostLine(hosts[i - 1]) {
    }
  }

  // ---------- updating again ----------

  function Copies(lines: seq<string>): seq<Piece> {
    seq(|lines|, i requires 0 <= i < |lines| => Line(lines[i]))
  }

  ghost predicate Clean(lines: seq<string>) {
    forall i :: 0 <= i < |lines| ==> !Begins(lines[i])
  }

  lemma {:induction false} CopiesStep(lines: seq<string>, rest: seq<Piece>)
    requires lines != []
    ensures Copies(lines) + rest == [Line(lines[0])] + (Copies(lines[1..]) + rest)
  {
    assert Copies(lines) == [Line(lines[0])] + Copies(lines[1..]);
  }

  lemma {:induction false} PiecesOfClean(clean: seq<string>, rest: seq<string>)
    requires Clean(clean)
    ensures Pieces(clean + rest) == Copies(clean) + Pieces(rest)
    decreases |clean|
  {
    hide Begins, Pieces, Copies;
    if clean == [] {
      assert clean + rest == rest;
      assert Copies(clean) + Pieces(rest) == Pieces(rest) by { OnlyRest(Pieces(rest)); }
    } else {
      PiecesOfClean(clean[1..], rest);
      assert (clean + rest)[1..] == clean[1..] + rest;
      PiecesCopy(clean + rest);
      CopiesStep(clean, Pieces(rest));
    }
  }

  lemma {:induction false} OnlyRest(rest: seq<Piece>)
    ensures Copies([]) + rest == rest
  {
    assert Copies([]) == [];
  }

  lemma {:induction false} EndOfBlock(block: seq<string>, rest: seq<string>, k: nat)
    requires IsBlock(block) && k < |block|
    ensures EndAt((block + rest)[k..]) == |block| - 1 - k
    decreases |block| - k
  {
    hide Ends, Begins;
    Markers();
    var lines := (block + rest)[k..];
    assert lines[0] == block[k];
    if k < |block| - 1 {
      EndOfBlock(block, rest, k + 1);
      assert lines[1..] == (block + rest)[k + 1..];
    }
  }

  /** A block is replaced, and the line after it is passed over. */
  lemma {:induction false} PiecesOfBlock(block: seq<string>, rest: seq<string>)
    requires IsBlock(block)
    ensures Pieces(block + rest) == [Block] + if rest == [] then [] else Pieces(rest[1..])
  {
    hide Begins, Ends, EndAt;
    Markers();
    var lines := block + rest;
    assert lines[0..] == lines;
    EndOfBlock(block, rest, 0);
    PiecesBlock(lines);
    if rest != [] {
      assert lines[|block| + 1..] == rest[1..];
    }
  }

  /** A text without the begin marker keeps every line, and the block follows it. */
  lemma {:induction false} BlockIsAppended(text: string, block: string)
    requires !Contains(text, INVENTORY_BEGIN)
    ensures Plan(Split(text)) == Copies(Split(text)) + [Block]
    ensures Updated(text, block) == text + "\n" + block
  {
    hide Contains, Render;
    var lines := Split(text);
    forall k | 0 <= k < |lines| ensures !Begins(lines[k]) {
      if Begins(lines[k]) {
        LineInText(text, INVENTORY_BEGIN, k);
      }
    }
    assert lines + [] == lines;
    PiecesOfClean(lines, []);
    RenderAppend(Copies(lines), [Block], block);
    RenderOne(Block, block);
    RenderCopies(lines, block);
    TextOfSplit(text);
  }

  lemma {:induction false} RenderCopies(lines: seq<string>, block: string)
    ensures Render(Copies(lines), block) == Text(lines)
    decreases |lines|
  {
    if lines != [] {
      assert Copies(lines)[1..] == Copies(lines[1..]);
      RenderCopies(lines[1..], block);
    }
  }

  /** Rendering with a block given as its lines, line by line. */
  function RenderLines(pieces: seq<Piece>, block: seq<string>): seq<string> {
    if pieces == [] then []
    else (if pieces[0].Block? then block else [pieces[0].text]) + RenderLines(pieces[1..], block)
  }

  ghost predicate CleanPieces(pieces: seq<Piece>) {
    forall i :: 0 <= i < |pieces| && pieces[i].Line? ==> OneLine(pieces[i].text) && !Begins(pieces[i].text)
  }

  lemma {:induction false} RenderIsText(pieces: seq<Piece>, block: seq<string>)
    ensures Render(pieces, Text(block)) == Text(RenderLines(pieces, block))
    decreases |pieces|
  {
    if pieces != [] {
      RenderIsText(pieces[1..], block);
      var head := if pieces[0].Block? then block else [pieces[0].text];
      TextAppend(head, RenderLines(pieces[1..], block));
      if pieces[0].Line? {
        assert head[1..] == [];
      }
    }
  }

  lemma {:induction false} RenderLinesAppend(a: seq<Piece>, b: seq<Piece>, block: seq<string>)
    ensures RenderLines(a + b, block) == RenderLines(a, block) + RenderLines(b, block)
    decreases |a|
  {
    if a == [] {
      assert a + b == b;
    } else {
      RenderLinesAppend(a[1..], b, block);
      assert (a + b)[0] == a[0] && (a + b)[1..] == a[1..] + b;
      var head := if a[0].Block? then block else [a[0].text];
      assert head + (RenderLines(a[1..], block) + RenderLines(b, block)) == head + RenderLines(a[1..], block)
          + RenderLines(b, block);
    }
  }

  lemma {:induction false} RenderLinesCopies(lines: seq<string>, block: seq<string>)
    ensures RenderLines(Copies(lines), block) == lines
    decreases |lines|
  {
    if lines != [] {
      assert Copies(lines)[1..] == Copies(lines[1..]);
      RenderLinesCopies(lines[1..], block);
    }
  }

  lemma {:induction false} RenderLinesAreLines(pieces: seq<Piece>, block: seq<string>)
    requires CleanPieces(pieces) && AreLines(block)
    ensures AreLines(RenderLines(pieces, block))
    decreases |pieces|
  {
    hide Begins;
    if pieces != [] {
      assert CleanPieces(pieces[1..]);
      RenderLinesAreLines(pieces[1..], block);
    }
  }

  /** Only lines without a begin marker are copied. */
  lemma {:induction false} PiecesAreClean(lines: seq<string>)
    requires AreLines(lines)
    ensures CleanPieces(Pieces(lines))
    decreases |lines|
  {
    hide Begins, EndAt;
    if lines != [] {
      if !Begins(lines[0]) {
        PiecesCopy(lines);
        assert AreLines(lines[1..]);
        PiecesAreClean(lines[1..]);
      } else {
        PiecesBlock(lines);
        var e := EndAt(lines);
        if e + 2 <= |lines| {
          assert AreLines(lines[e + 2..]);
          PiecesAreClean(lines[e + 2..]);
        }
      }
    }
  }

  /** The number of copied lines in front of the first block. */
  function Leading(pieces: seq<Piece>): (k: nat)
    ensures k <= |pieces| && (k < |pieces| ==> pieces[k].Block?)
    ensures forall i :: 0 <= i < k ==> pieces[i].Line?
  {
    if pieces == [] || pieces[0].Block? then 0 else 1 + Leading(pieces[1..])
  }

  function Texts(pieces: seq<Piece>): seq<string>
    requires forall i :: 0 <= i < |pieces| ==> pieces[i].Line?
  {
    seq(|pieces|, i requires 0 <= i < |pieces| => pieces[i].text)
  }

  /** There is a block, and nothing but empty lines is written after the first one. */
  predicate Settled(plan: seq<Piece>) {
    var k := Leading(plan);
    k < |plan| && forall j :: k < j < |plan| ==> plan[j] == Line("")
  }

  /** The first line with a begin marker, or the number of lines. */
  function FirstBegin(lines: seq<string>): (b: nat)
    ensures b <= |lines| && Clean(lines[..b]) && (b < |lines| ==> Begins(lines[b]))
  {
    if lines == [] || Begins(lines[0]) then 0 else 1 + FirstBegin(lines[1..])
  }

  /** Empty lines up to the next begin marker, which, if there is one, is never closed. */
  predicate EmptyUntilLost(lines: seq<string>) {
    var b := FirstBegin(lines);
    && (forall j :: 0 <= j < b ==> lines[j] == "")
    && (b < |lines| ==> EndAt(lines[b..]) == |lines| - b)
  }

  /**
   * The texts in which a block can be replaced any number of times: there is no begin marker; or the first one is
   * closed, and from the second line after its end marker on there is nothing that would be kept but empty lines.
   */
  predicate Replaceable(lines: seq<string>) {
    var b := FirstBegin(lines);
    b == |lines| ||
    (var e := b + EndAt(lines[b..]);
     e < |lines| && (e + 2 <= |lines| ==> EmptyUntilLost(lines[e + 2..])))
  }

  /** What is planned behind the first block is empty lines iff the lines there say so. */
  lemma {:induction false} PiecesAreEmpty(lines: seq<string>)
    ensures (forall j :: 0 <= j < |Pieces(lines)| ==> Pieces(lines)[j] == Line("")) <==> EmptyUntilLost(lines)
  {
    hide Begins, Pieces, EndAt;
    var b := FirstBegin(lines);
    var rest := lines[b..];
    assert lines == lines[..b] + rest;
    PiecesOfClean(lines[..b], rest);
    var copies, pieces := Copies(lines[..b]), Pieces(lines);
    assert forall j :: 0 <= j < b ==> pieces[j] == Line(lines[j]);
    if rest == [] {
      NoPieces();
      assert pieces == copies;
    } else {
      PiecesBlock(rest);
      if EndAt(rest) < |rest| {
        assert pieces[b] == Block;
      } else {
        assert pieces == copies;
      }
    }
  }

  lemma {:induction false} FirstBlockSettled(pre: seq<string>, rest: seq<string>)
    requires Clean(pre) && rest != [] && Begins(rest[0])
    ensures var e := EndAt(rest);
      Settled(Plan(pre + rest)) <==> e < |rest| && (e + 2 <= |rest| ==> EmptyUntilLost(rest[e + 2..]))
  {
    hide Begins, Pieces, EndAt, Leading, EmptyUntilLost, Settled;
    PiecesOfClean(pre, rest);
    PiecesBlock(rest);
    assert (pre + rest)[|pre|] == rest[0] && Present(pre + rest);
    var e := EndAt(rest);
    if e == |rest| {
      assert Plan(pre + rest) == Copies(pre);
      OnlyLines(pre);
    } else {
      var tail := if e + 2 <= |rest| then Pieces(rest[e + 2..]) else [];
      assert Plan(pre + rest) == Copies(pre) + [Block] + tail;
      SettledTail(pre, tail);
      if e + 2 <= |rest| {
        PiecesAreEmpty(rest[e + 2..]);
      }
    }
  }

  lemma {:induction false} NoBeginSettled(lines: seq<string>)
    requires Clean(lines)
    ensures Settled(Plan(lines))
  {
    hide Begins, Leading, Settled;
    CleanPlan(lines);
    assert Copies(lines) + [Block] + [] == Copies(lines) + [Block];
    SettledTail(lines, []);
  }

  /** The condition on the lines is what the plan needs to come out the same again. */
  lemma {:induction false} ReplaceableIsSettled(lines: seq<string>)
    ensures Settled(Plan(lines)) <==> Replaceable(lines)
  {
    hide Begins, Plan, EndAt, EmptyUntilLost, Settled;
    var b := FirstBegin(lines);
    var pre, rest := lines[..b], lines[b..];
    assert lines == pre + rest;
    if b == |lines| {
      assert pre == lines;
      NoBeginSettled(lines);
    } else {
      FirstBlockSettled(pre, rest);
      var e := EndAt(rest);
      if e + 2 <= |rest| {
        assert rest[e + 2..] == lines[b + e + 2..];
      }
    }
  }

  lemma {:induction false} OnlyLines(pre: seq<string>)
    ensures !Settled(Copies(pre))
  {
    var pieces := Copies(pre);
    assert forall i :: 0 <= i < |pieces| ==> pieces[i].Line?;
  }

  lemma {:induction false} SettledTail(pre: seq<string>, tail: seq<Piece>)
    ensures Settled(Copies(pre) + [Block] + tail) <==> forall j :: 0 <= j < |tail| ==> tail[j] == Line("")
  {
    hide Leading;
    LeadingOfCopies(pre, tail);
    var plan := Copies(pre) + [Block] + tail;
    assert forall j :: 0 <= j < |tail| ==> plan[|pre| + 1 + j] == tail[j];
  }

  /** A plan with a block: clean lines, the block, and the rest. */
  lemma {:induction false} Parts(plan: seq<Piece>) returns (pre: seq<string>, tail: seq<Piece>)
    requires CleanPieces(plan)
    ensures Clean(pre) && AreLines(pre) && CleanPieces(tail)
    ensures if Leading(plan) < |plan| then
        plan == Copies(pre) + [Block] + tail && |pre| == Leading(plan) && tail == plan[Leading(plan) + 1..]
      else plan == Copies(pre)
  {
    hide Begins;
    var k := Leading(plan);
    pre := Texts(plan[..k]);
    assert Copies(pre) == plan[..k];
    if k < |plan| {
      tail := plan[k + 1..];
      assert plan == plan[..k] + [plan[k]] + tail;
    } else {
      tail := [];
      assert plan[..k] == plan;
    }
  }

  lemma {:induction false} PlanIsClean(text: string)
    ensures CleanPieces(Plan(Split(text)))
  {
    hide Begins, Present, Pieces;
    SplitIsLines(text);
    PiecesAreClean(Split(text));
  }

  /** The lines of the file after an update. */
  lemma {:induction false} LinesAfter(text: string, block: seq<string>)
    requires AreLines(block)
    ensures Split(Updated(text, Text(block))) == RenderLines(Plan(Split(text)), block) + [""]
  {
    hide Begins, Plan, Render, RenderLines, CleanPieces;
    var plan := Plan(Split(text));
    PlanIsClean(text);
    RenderIsText(plan, block);
    RenderLinesAreLines(plan, block);
    SplitOfText(RenderLines(plan, block));
  }

  lemma {:induction false} RenderLinesParts(pre: seq<string>, tail: seq<Piece>, block: seq<string>)
    ensures RenderLines(Copies(pre) + [Block] + tail, block) == pre + block + RenderLines(tail, block)
  {
    RenderLinesAppend(Copies(pre) + [Block], tail, block);
    RenderLinesAppend(Copies(pre), [Block], block);
    RenderLinesCopies(pre, block);
    assert [Block][1..] == [];
    assert RenderLines([Block], block) == block + RenderLines([], block) == block;
  }

  /** The lines after the first block as the next update finds them: without the first. */
  function Next(tail: seq<Piece>, block: seq<string>): seq<string> {
    (RenderLines(tail, block) + [""])[1..]
  }

  /** The plan of a second update, when the first one has written a block. */
  lemma {:induction false} PlanAgain(pre: seq<string>, tail: seq<Piece>, block: seq<string>)
    requires Clean(pre) && IsBlock(block)
    ensures Plan(RenderLines(Copies(pre) + [Block] + tail, block) + [""]) == Copies(pre) + [Block]
        + Pieces(Next(tail, block))
  {
    hide Begins, Ends, Pieces, RenderLines;
    var rest := RenderLines(tail, block) + [""];
    var lines := pre + (block + rest);
    RenderLinesParts(pre, tail, block);
    assert pre + block + RenderLines(tail, block) + [""] == lines;
    PiecesOfClean(pre, block + rest);
    PiecesOfBlock(block, rest);
    Markers();
    assert lines[|pre|] == block[0];
    assert Present(lines);
    assert Copies(pre) + ([Block] + Pieces(rest[1..])) == Copies(pre) + [Block] + Pieces(rest[1..]);
    assert Pieces(lines) + [] == Pieces(lines);
  }

  lemma {:induction false} EmptyIsClean()
    ensures !Begins("") && OneLine("")
  {
    assert !At("", 0, INVENTORY_BEGIN);
  }

  /** Empty lines after the block: the one dropped makes room for the one the final newline brings. */
  lemma {:induction false} EmptyTailStays(tail: seq<Piece>, block: seq<string>)
    requires forall j :: 0 <= j < |tail| ==> tail[j] == Line("")
    ensures Pieces(Next(tail, block)) == tail
  {
    hide Begins, RenderLines, Pieces;
    var empties := seq(|tail|, i => "");
    assert tail == Copies(empties);
    RenderLinesCopies(empties, block);
    assert Next(tail, block) == empties;
    EmptyIsClean();
    PiecesOfClean(empties, []);
    assert empties + [] == empties;
    RenderNothing("");
    NoPieces();
  }

  lemma {:induction false} NoPieces()
    ensures Pieces([]) == []
  {
  }

  lemma {:induction false} BlockLines(block: seq<string>)
    requires IsBlock(block)
    ensures AreLines(block) && |block| >= 2 && block[0] == INVENTORY_BEGIN && Begins(block[0])
  {
    Markers();
  }

  /** The second update plans what the first one planned. */
  lemma {:induction false} SettledPlansAgain(text: string, block: seq<string>)
    requires IsBlock(block) && Settled(Plan(Split(text)))
    ensures Plan(Split(Updated(text, Text(block)))) == Plan(Split(text))
  {
    hide Begins, Plan, RenderLines, Pieces, IsBlock, CleanPieces, Copies;
    var plan := Plan(Split(text));
    PlanIsClean(text);
    var pre, tail := Parts(plan);
    BlockLines(block);
    LinesAfter(text, block);
    PlanAgain(pre, tail, block);
    EmptyTailStays(tail, block);
  }

  /**
   * Put-put: in a text without a begin marker, updating with one block and then with another is updating once with
   * the second, and the text stays as it was in front of the block.
   */
  lemma {:induction false} PutPut(text: string, first: seq<string>, second: string)
    requires !Contains(text, INVENTORY_BEGIN) && IsBlock(first)
    ensures Updated(Updated(text, Text(first)), second) == Updated(text, second) == text + "\n" + second
  {
    hide Contains, Plan, Render, IsBlock, Leading;
    BlockIsAppended(text, second);
    var lines := Split(text);
    LeadingOfCopies(lines, []);
    assert Copies(lines) + [Block] + [] == Copies(lines) + [Block];
    SettledPlansAgain(text, first);
  }

  lemma {:induction false} LeadingOfCopies(lines: seq<string>, tail: seq<Piece>)
    ensures Leading(Copies(lines) + [Block] + tail) == |lines|
    decreases |lines|
  {
    if lines != [] {
      LeadingOfCopies(lines[1..], tail);
      assert (Copies(lines) + [Block] + tail)[1..] == Copies(lines[1..]) + [Block] + tail;
    }
  }

  /** Without a block written the first time, the second update adds one. */
  lemma {:induction false} LostBlockComesBack(text: string, first: seq<string>, second: seq<string>)
    requires IsBlock(first) && IsBlock(second) && Leading(Plan(Split(text))) == |Plan(Split(text))|
    ensures Updated(Updated(text, Text(first)), Text(second)) != Updated(text, Text(second))
  {
    hide Begins, Plan, Render, RenderLines, Pieces, IsBlock, CleanPieces, Copies, Present, Text, Leading;
    var plan := Plan(Split(text));
    PlanIsClean(text);
    var pre, tail := Parts(plan);
    BlockLines(first);
    BlockLines(second);
    LinesAfter(text, first);
    RenderLinesCopies(pre, first);
    RenderCopies(pre, Text(second));
    CleanPlan(pre + [""]) by { EmptyIsClean(); }
    RenderAppend(Copies(pre + [""]), [Block], Text(second));
    RenderOne(Block, Text(second));
    RenderCopies(pre + [""], Text(second));
    TextAppend(pre, [""]);
    TextNotEmpty(second);
  }

  lemma {:induction false} TextNotEmpty(lines: seq<string>)
    requires lines != []
    ensures |Text(lines)| > 0
  {
  }

  lemma {:induction false} CleanPlan(lines: seq<string>)
    requires Clean(lines)
    ensures Plan(lines) == Copies(lines) + [Block]
  {
    hide Begins, Pieces;
    PiecesOfClean(lines, []);
    assert lines + [] == lines;
    NoPieces();
  }

  /** If the lines planned after the block come out the same the second time, they are all empty. */
  lemma {:induction false} SameTailIsEmpty(tail: seq<Piece>, first: seq<string>, second: seq<string>)
    requires CleanPieces(tail) && IsPlainBlock(first) && IsPlainBlock(second)
    requires RenderLines(Pieces(Next(tail, first)), second) == RenderLines(tail, second)
    ensures forall j :: 0 <= j < |tail| ==> tail[j] == Line("")
  {
    hide Begins, Pieces, RenderLines, CleanPieces, IsPlainBlock, Copies;
    var c, more := Parts(tail);
    if Leading(tail) == |tail| {
      OnlyCopies(c, first, second);
      assert tail == Copies(c);
      CopiesOfEmpty(c);
    } else if c == [] {
      BlockAfterBlock(more, first, second);
      NoCopies(more);
      assert false;
    } else {
      BlockAfterLines(c, more, first, second);
      assert false;
    }
  }

  lemma {:induction false} CopiesOfEmpty(lines: seq<string>)
    requires forall j :: 0 <= j < |lines| ==> lines[j] == ""
    ensures forall j :: 0 <= j < |Copies(lines)| ==> Copies(lines)[j] == Line("")
  {
  }

  lemma {:induction false} OnlyCopies(c: seq<string>, first: seq<string>, second: seq<string>)
    requires Clean(c)
    requires RenderLines(Pieces(Next(Copies(c), first)), second) == RenderLines(Copies(c), second)
    ensures forall j :: 0 <= j < |c| ==> c[j] == ""
  {
    hide Begins, Pieces, RenderLines, Copies;
    RenderLinesCopies(c, first);
    RenderLinesCopies(c, second);
    var next := (c + [""])[1..];
    EmptyIsClean();
    assert Clean(next) by {
      forall i | 0 <= i < |next| ensures !Begins(next[i]) {
        assert next[i] == (c + [""])[i + 1];
      }
    }
    PiecesOfClean(next, []);
    NoPieces();
    assert next + [] == next && Copies(next) + [] == Copies(next);
    RenderLinesCopies(next, second);
    assert next == c;
    Shifted(c, |c|);
  }

  /** A list that is its own tail with an empty line added is all empty lines. */
  lemma {:induction false} Shifted(c: seq<string>, k: nat)
    requires (c + [""])[1..] == c && k <= |c|
    ensures forall j :: |c| - k <= j < |c| ==> c[j] == ""
    decreases k
  {
    if k > 0 {
      Shifted(c, k - 1);
      var j := |c| - k;
      assert c[j] == (c + [""])[1..][j] == (c + [""])[j + 1];
    }
  }

  /** A line, then a block: the second time the block comes one line earlier, where no begin marker was. */
  lemma {:induction false} BlockAfterLines(c: seq<string>, more: seq<Piece>, first: seq<string>, second: seq<string>)
    requires Clean(c) && c != [] && IsPlainBlock(first) && IsPlainBlock(second)
    ensures RenderLines(Pieces(Next(Copies(c) + [Block] + more, first)), second)
      != RenderLines(Copies(c) + [Block] + more, second)
  {
    hide Begins, Pieces, RenderLines, Ends, Copies;
    var rest := RenderLines(more, first) + [""];
    RenderLinesParts(c, more, first);
    RenderLinesParts(c, more, second);
    assert Next(Copies(c) + [Block] + more, first) == c[1..] + (first + rest);
    PiecesOfClean(c[1..], first + rest);
    PiecesOfBlock(first, rest);
    assert Copies(c[1..]) + ([Block] + Pieces(rest[1..])) == Copies(c[1..]) + [Block] + Pieces(rest[1..]);
    RenderLinesParts(c[1..], Pieces(rest[1..]), second);
    BlockLines(second);
    var k := |c| - 1;
    assert (c[1..] + second + RenderLines(Pieces(rest[1..]), second))[k] == second[0];
    assert (c + second + RenderLines(more, second))[k] == c[k];
  }

  /** Two blocks in a row: the second time the begin line of the second one is passed over. */
  lemma {:induction false} BlockAfterBlock(more: seq<Piece>, first: seq<string>, second: seq<string>)
    requires IsPlainBlock(first) && IsPlainBlock(second)
    ensures RenderLines(Pieces(Next([Block] + more, first)), second) != RenderLines([Block] + more, second)
  {
    hide Begins, Pieces, RenderLines, Ends, Copies;
    var rest := RenderLines(more, first) + [""];
    RenderLinesParts([], more, first);
    RenderLinesParts([], more, second);
    NoCopies(more);
    assert Next([Block] + more, first) == first[1..] + rest;
    Markers();
    BlockLines(first);
    BlockLines(second);
    var lines := first[1..] + rest;
    assert lines[0] == first[1] && !Begins(first[1]);
    PiecesCopy(lines);
    RenderLinesAppend([Line(first[1])], Pieces(lines[1..]), second);
    RenderLinesCopies([first[1]], second);
    assert Copies([first[1]]) == [Line(first[1])] by { OneCopy(first[1]); }
    assert ([] + second + RenderLines(more, second))[0] == second[0];
  }

  lemma {:induction false} NoCopies(more: seq<Piece>)
    ensures Copies([]) + [Block] + more == [Block] + more
  {
    assert Copies([]) == [];
  }

  lemma {:induction false} OneCopy(line: string)
    ensures Copies([line]) == [Line(line)]
  {
  }

  /**
   * Exactly when an update undoes the one before it: when the text has no begin marker, or its first block is closed
   * and nothing but empty lines would be kept from the second line after it on. In every other text a line is lost,
   * or a block comes back.
   */
  lemma {:induction false} PutPutExactly(text: string, first: seq<string>, second: seq<string>)
    requires IsPlainBlock(first) && IsPlainBlock(second)
    ensures Updated(Updated(text, Text(first)), Text(second)) == Updated(text, Text(second)) <==>
        Replaceable(Split(text))
  {
    ReplaceableIsSettled(Split(text));
    PutPutWhenSettled(text, first, second);
  }

  lemma {:induction false} PutPutWhenSettled(text: string, first: seq<string>, second: seq<string>)
    requires IsPlainBlock(first) && IsPlainBlock(second)
    ensures Updated(Updated(text, Text(first)), Text(second)) == Updated(text, Text(second)) <==>
        Settled(Plan(Split(text)))
  {
    hide Begins, Plan, Render, RenderLines, Pieces, IsBlock, CleanPieces, Copies, Text, Leading;
    var plan := Plan(Split(text));
    if Settled(plan) {
      SettledPlansAgain(text, first);
    } else if Leading(plan) == |plan| {
      LostBlockComesBack(text, first, second);
    } else if Updated(Updated(text, Text(first)), Text(second)) == Updated(text, Text(second)) {
      SameIsSettled(text, first, second);
      assert false;
    }
  }

  lemma {:induction false} SameIsSettled(text: string, first: seq<string>, second: seq<string>)
    requires IsPlainBlock(first) && IsPlainBlock(second) && Leading(Plan(Split(text))) < |Plan(Split(text))|
    requires Updated(Updated(text, Text(first)), Text(second)) == Updated(text, Text(second))
    ensures Settled(Plan(Split(text)))
  {
    hide Begins, Plan, Render, RenderLines, Pieces, IsBlock, CleanPieces, Copies, Text, Leading;
    var plan := Plan(Split(text));
    PlanIsClean(text);
    var pre, tail := Parts(plan);
    BlockLines(first);
    BlockLines(second);
    LinesAfter(text, first);
    LinesAfter(text, second);
    LinesAfter(Updated(text, Text(first)), second);
    PlanAgain(pre, tail, first);
    RenderLinesParts(pre, tail, second);
    RenderLinesParts(pre, Pieces(Next(tail, first)), second);
    var a, b := RenderLines(tail, second), RenderLines(Pieces(Next(tail, first)), second);
    SameRest(pre + second, a, b);
    SameTailIsEmpty(tail, first, second);
  }

  lemma {:induction false} SameRest(front: seq<string>, a: seq<string>, b: seq<string>)
    requires front + a + [""] == front + b + [""]
    ensures a == b
  {
    assert a == (front + a + [""])[|front|..|front + a|];
    assert |front + a + [""]| == |front + b + [""]|;
    assert b == (front + b + [""])[|front|..|front + b|];
  }

  /** The line after a replaced block is gone, whatever it says. */
  lemma {:induction false} LineAfterBlockIsLost(pre: seq<string>, block: seq<string>, line: string, post: seq<string>)
    requires Clean(pre) && IsBlock(block)
    ensures Plan(pre + block + [line] + post) == Copies(pre) + [Block] + Pieces(post)
  {
    hide Begins, Ends, Pieces;
    var rest := [line] + post;
    assert pre + block + [line] + post == pre + (block + rest);
    PiecesOfClean(pre, block + rest);
    PiecesOfBlock(block, rest);
    assert rest[1..] == post;
    BlockLines(block);
    assert (pre + (block + rest))[|pre|] == block[0];
    assert Copies(pre) + ([Block] + Pieces(post)) + [] == Copies(pre) + [Block] + Pieces(post);
  }

  /** The file as it is written when its one block is replaced. */
  lemma {:induction false} BlockIsReplaced(text: string, pre: seq<string>, block: seq<string>, line: string,
                                           post: seq<string>, next: string)
    requires Split(text) == pre + block + [line] + post && Clean(pre) && Clean(post) && IsBlock(block)
    ensures Updated(text, next) == Text(pre) + next + Text(post)
  {
    hide Begins, Ends, Pieces, Plan, Render, Split;
    LineAfterBlockIsLost(pre, block, line, post);
    PiecesOfClean(post, []);
    assert post + [] == post;
    NoPieces();
    assert Copies(post) + [] == Copies(post);
    RenderAppend(Copies(pre) + [Block], Copies(post), next);
    RenderAppend(Copies(pre), [Block], next);
    RenderOne(Block, next);
    RenderCopies(pre, next);
    RenderCopies(post, next);
  }

  /** A begin marker without an end marker after it: nothing from there on is kept, and no block is written. */
  lemma {:induction false} UnclosedBlockIsLost(pre: seq<string>, rest: seq<string>)
    requires Clean(pre) && rest != [] && Begins(rest[0]) && EndAt(rest) == |rest|
    ensures Plan(pre + rest) == Copies(pre)
  {
    hide Begins, Ends, Pieces, EndAt;
    PiecesOfClean(pre, rest);
    PiecesBlock(rest);
    assert (pre + rest)[|pre|] == rest[0];
    assert Copies(pre) + [] + [] == Copies(pre);
  }
}
