/**
  The log-line splitter (internal/docker/logs.go): a byte stream becomes lines of
  bounded length.  The stream ends where the reader first fails; a receiver may
  cancel at any send.
  */
module LogLines {
  import opened Wrappers
  import opened Splitting

  type Byte = b: int | 0 <= b < 256

  const NL: Byte := 10
  const CR: Byte := 13
  const MAX_LOG_LINE: nat := 64 * 1024

  // ---------- What the splitter is for ----------

  /** The pieces between newlines; the last one, possibly empty, is the unterminated rest. */
  function Pieces(s: seq<Byte>): (pieces: seq<seq<Byte>>)
    ensures |pieces| > 0
  {
    Split(s, NL)
  }

  function Capped(s: seq<Byte>): (r: seq<Byte>)
    ensures r <= s && |r| <= MAX_LOG_LINE
  {
    if |s| <= MAX_LOG_LINE then s else s[..MAX_LOG_LINE]
  }

  function TrimCR(s: seq<Byte>): seq<Byte> { if |s| > 0 && s[|s| - 1] == CR then s[..|s| - 1] else s }

  /** What becomes of a piece: at most its first MAX_LOG_LINE bytes, and then without one trailing CR. */
  function Line(piece: seq<Byte>): seq<Byte> { TrimCR(Capped(piece)) }

  /** One line per terminated piece, and one for the rest when anything of it is left. */
  function Lines(pieces: seq<seq<Byte>>): seq<seq<Byte>>
    requires |pieces| > 0
  {
    if |pieces| == 1 then if Line(pieces[0]) == [] then [] else [Line(pieces[0])]
    else [Line(pieces[0])] + Lines(pieces[1..])
  }

  function Terminated(lines: seq<seq<Byte>>): seq<Byte> {
    if lines == [] then [] else lines[0] + [NL] + Terminated(lines[1..])
  }

  /** A piece the splitter passes on unchanged. */
  predicate Short(piece: seq<Byte>) {
    |piece| <= MAX_LOG_LINE && (piece != [] ==> piece[|piece| - 1] != CR)
  }

  // ---------- What the lines keep ----------

  lemma {:induction false} LinesAreClean(pieces: seq<seq<Byte>>)
    requires |pieces| > 0 && forall k :: 0 <= k < |pieces| ==> Free(pieces[k], NL)
    ensures forall line :: line in Lines(pieces) ==> Free(line, NL) && |line| <= MAX_LOG_LINE
  {
    if |pieces| > 1 { LinesAreClean(pieces[1..]); }
  }

  lemma {:induction false} TerminatedIsJoined(lines: seq<seq<Byte>>)
    ensures Terminated(lines) == Joined(lines + [[]], NL)
  {
    if lines != [] {
      TerminatedIsJoined(lines[1..]);
      assert (lines + [[]])[1..] == lines[1..] + [[]];
    }
  }

  lemma ShortIsUnchanged(piece: seq<Byte>)
    ensures Line(piece) == piece <==> Short(piece)
  {
  }

  lemma {:induction false} UnchangedLines(pieces: seq<seq<Byte>>)
    requires |pieces| > 0
    ensures Lines(pieces) + [[]] == pieces <==>
      pieces[|pieces| - 1] == [] && forall k :: 0 <= k < |pieces| ==> Short(pieces[k])
  {
    if |pieces| == 1 {
      assert Lines(pieces) + [[]] == pieces ==> |Lines(pieces)| == 0;
    } else {
      var rest := pieces[1..];
      UnchangedLines(rest);
      ShortIsUnchanged(pieces[0]);
      assert Lines(pieces) + [[]] == [Line(pieces[0])] + (Lines(rest) + [[]]);
      assert pieces == [pieces[0]] + rest;
      if Lines(pieces) + [[]] == pieces {
        assert Line(pieces[0]) == pieces[0];
        assert Lines(rest) + [[]] == (Lines(pieces) + [[]])[1..];
      }
    }
  }

  /** A piece under the cap loses one CR it ends in and nothing else; of a longer one the first bytes are left. */
  lemma LineOf(piece: seq<Byte>)
    ensures |piece| < MAX_LOG_LINE ==> Line(piece + [CR]) == piece
    ensures |piece| <= MAX_LOG_LINE && (piece != [] ==> piece[|piece| - 1] != CR) ==> Line(piece) == piece
    ensures |piece| > MAX_LOG_LINE ==>
      Line(piece) == if piece[MAX_LOG_LINE - 1] == CR then piece[..MAX_LOG_LINE - 1] else piece[..MAX_LOG_LINE]
  {
  }

  /** A stream of lines, each ended by a newline or by CR and newline, and an unterminated rest. */
  function Text(lines: seq<seq<Byte>>, withCR: seq<bool>, rest: seq<Byte>): seq<Byte>
    requires |withCR| == |lines|
  {
    if lines == [] then rest
    else lines[0] + (if withCR[0] then [CR] else []) + [NL] + Text(lines[1..], withCR[1..], rest)
  }

  /** A line under the cap that holds no newline and does not end in CR. */
  predicate Plain(line: seq<Byte>) {
    |line| < MAX_LOG_LINE && Free(line, NL) && (line != [] ==> line[|line| - 1] != CR)
  }

  /** Round trip: the lines of a text come out as they were written, whichever way each of them was ended. */
  lemma {:induction false} LinesComeBack(lines: seq<seq<Byte>>, withCR: seq<bool>, rest: seq<Byte>)
    requires |withCR| == |lines| && Plain(rest) && forall k :: 0 <= k < |lines| ==> Plain(lines[k])
    ensures Lines(Pieces(Text(lines, withCR, rest))) == lines + if rest == [] then [] else [rest]
  {
    hide Line, Lines, Split, Pieces, Plain;
    if lines == [] {
      RestComesBack(rest);
    } else {
      LinesComeBack(lines[1..], withCR[1..], rest);
      FirstComesBack(lines[0], withCR[0], Text(lines[1..], withCR[1..], rest));
    }
  }

  lemma RestComesBack(rest: seq<Byte>)
    requires Plain(rest)
    ensures Lines(Pieces(rest)) == if rest == [] then [] else [rest]
  {
    LineOf(rest);
    FirstPiece(rest, NL, rest);
    assert Pieces(rest) == [rest];
    hide Line, Split, Free;
  }

  lemma FirstComesBack(line: seq<Byte>, withCR: bool, more: seq<Byte>)
    requires Plain(line)
    ensures Lines(Pieces(line + (if withCR then [CR] else []) + [NL] + more)) == [line] + Lines(Pieces(more))
  {
    hide Line, Pieces, Plain;
    var ended := line + if withCR then [CR] else [];
    EndedLine(line, withCR);
    AtNewline(ended, more);
    var pieces := [ended] + Pieces(more);
    assert pieces[1..] == Pieces(more);
  }

  lemma EndedLine(line: seq<Byte>, withCR: bool)
    requires Plain(line)
    ensures Line(line + if withCR then [CR] else []) == line && Free(line + if withCR then [CR] else [], NL)
  {
    LineOf(line);
    hide Line;
    if !withCR { assert line + [] == line; }
  }

  /**
    Ending every line with a newline gives the stream back exactly when the stream
    ends with one (or is empty) and each of its pieces is short and does not end in CR.
    */
  lemma LinesRestoreTheStream(s: seq<Byte>)
    ensures Terminated(Lines(Pieces(s))) == s <==>
      (s == [] || s[|s| - 1] == NL) && forall k :: 0 <= k < |Pieces(s)| ==> Short(Pieces(s)[k])
  {
    var pieces := Pieces(s);
    hide Lines, Terminated, Split, Short;
    JoiningPieces(s, NL);
    RestoredWhenUnchanged(s, pieces);
    UnchangedLines(pieces);
    LastPiece(pieces);
    hide Pieces, Joined;
  }

  lemma RestoredWhenUnchanged(s: seq<Byte>, pieces: seq<seq<Byte>>)
    requires pieces == Split(s, NL)
    ensures Terminated(Lines(pieces)) == s <==> Lines(pieces) + [[]] == pieces
  {
    hide Lines, Terminated, Joined, Split, Free;
    JoiningPieces(s, NL);
    var lines := Lines(pieces);
    EachFree(pieces);
    LinesAreClean(pieces);
    EachFree(lines);
    TerminatedIsJoined(lines);
    OneMoreFree(lines);
    OnlyPieces(lines + [[]], NL);
  }

  lemma EachFree(pieces: seq<seq<Byte>>)
    ensures (forall piece :: piece in pieces ==> Free(piece, NL)) <==> forall k :: 0 <= k < |pieces| ==> Free(pieces[k], NL)
  {
    hide Free;
  }

  lemma OneMoreFree(lines: seq<seq<Byte>>)
    requires forall k :: 0 <= k < |lines| ==> Free(lines[k], NL)
    ensures forall k :: 0 <= k < |lines + [[]]| ==> Free((lines + [[]])[k], NL)
  {
  }

  lemma {:induction false} LastPiece(pieces: seq<seq<Byte>>)
    requires |pieces| > 0 && forall k :: 0 <= k < |pieces| ==> Free(pieces[k], NL)
    ensures pieces[|pieces| - 1] == [] <==> Joined(pieces, NL) == [] || Joined(pieces, NL)[|Joined(pieces, NL)| - 1] == NL
  {
    if |pieces| > 1 {
      var rest := Joined(pieces[1..], NL);
      LastPiece(pieces[1..]);
      assert Joined(pieces, NL)[|Joined(pieces, NL)| - 1] == if rest == [] then NL else rest[|rest| - 1];
    }
  }

  // ---------- The loops ----------

  /** The buffered reader: a stream and how much of it has been read. */
  class Reader {
    const stream: seq<Byte>
    var pos: nat

    constructor (stream: seq<Byte>)
      ensures this.stream == stream && pos == 0
    {
      this.stream, pos := stream, 0;
    }

    function Rest(): seq<Byte>
      requires pos <= |stream|
      reads this
    {
      stream[pos..]
    }

    method ReadByte() returns (b: Option<Byte>)
      requires pos <= |stream|
      modifies this
      ensures pos <= |stream|
      ensures b.None? <==> old(Rest()) == []
      ensures b.Some? ==> old(Rest()) == [b.value] + Rest()
      ensures b.None? ==> pos == old(pos)
    {
      if pos == |stream| { return None; }
      b := Some(stream[pos]);
      pos := pos + 1;
    }
  }

  /** Reads to the next newline or the end: the line of the first piece, and the rest of the stream behind it. */
  method ReadCappedLine(br: Reader) returns (line: seq<Byte>, atEnd: bool)
    requires br.pos <= |br.stream|
    modifies br
    ensures br.pos <= |br.stream|
    ensures line == Line(Pieces(old(br.Rest()))[0])
    ensures atEnd <==> |Pieces(old(br.Rest()))| == 1
    ensures !atEnd ==> Pieces(br.Rest()) == Pieces(old(br.Rest()))[1..] && |br.Rest()| < |old(br.Rest())|
  {
    NothingSeen();
    hide Pieces, TrimCR, Capped, Free;
    var buf: seq<Byte> := [];
    ghost var rest := br.Rest();
    ghost var seen: seq<Byte> := [];
    while true
      invariant br.pos <= |br.stream|
      invariant rest == seen + br.Rest()
      invariant Free(seen, NL)
      invariant buf == Capped(seen)
      decreases |br.Rest()|
    {
      var b := br.ReadByte();
      if b.None? {
        AtEnd(seen);
        return TrimCR(buf), true;
      }
      if b.value == NL {
        AtNewline(seen, br.Rest());
        assert rest == seen + [NL] + br.Rest();
        return TrimCR(buf), false;
      }
      OneByteMore(seen, b.value, br.Rest());
      if |buf| < MAX_LOG_LINE { buf := buf + [b.value]; }
      seen := seen + [b.value];
    }
  }

  lemma NothingSeen()
    ensures Capped([]) == [] && Free<Byte>([], NL)
  {
  }

  lemma AtEnd(seen: seq<Byte>)
    requires Free(seen, NL)
    ensures Pieces(seen + []) == [seen]
  {
    FirstPiece(seen, NL, seen);
    assert seen + [] == seen;
  }

  lemma AtNewline(seen: seq<Byte>, ahead: seq<Byte>)
    requires Free(seen, NL)
    ensures Pieces(seen + [NL] + ahead) == [seen] + Pieces(ahead)
  {
    AfterFirst(seen, NL, ahead);
  }

  lemma OneByteMore(seen: seq<Byte>, b: Byte, ahead: seq<Byte>)
    ensures seen + ([b] + ahead) == (seen + [b]) + ahead
    ensures Free(seen, NL) && b != NL ==> Free(seen + [b], NL)
    ensures Capped(seen + [b]) == if |Capped(seen)| < MAX_LOG_LINE then Capped(seen) + [b] else Capped(seen)
  {
  }

  lemma NextLine(pieces: seq<seq<Byte>>, line: seq<Byte>)
    requires |pieces| > 0 && line == Line(pieces[0])
    ensures |pieces| == 1 ==> Lines(pieces) == if line == [] then [] else [line]
    ensures |pieces| > 1 ==> Lines(pieces) == [line] + Lines(pieces[1..])
  {
    hide Line;
  }

  /**
    Emits the stream's lines in order up to the first send that finds the receiver
    gone; `cancelled(k)` says whether the k-th send does.
    */
  method ScanLogLines(stream: seq<Byte>, cancelled: nat -> bool) returns (out: seq<seq<Byte>>)
    ensures out <= Lines(Pieces(stream))
    ensures forall k :: 0 <= k < |out| ==> !cancelled(k)
    ensures |out| < |Lines(Pieces(stream))| ==> cancelled(|out|)
  {
    hide Pieces, Lines, Line;
    var br := new Reader(stream);
    out := [];
    ghost var all, ahead := Lines(Pieces(stream)), Lines(Pieces(br.Rest()));
    while true
      invariant br.pos <= |br.stream|
      invariant all == out + ahead && ahead == Lines(Pieces(br.Rest()))
      invariant forall k :: 0 <= k < |out| ==> !cancelled(k)
      decreases |br.Rest()|
    {
      ghost var pieces := Pieces(br.Rest());
      var line, atEnd := ReadCappedLine(br);
      NextLine(pieces, line);
      ahead := if |pieces| > 1 then Lines(pieces[1..]) else [];
      if line != [] || !atEnd {
        if cancelled(|out|) { return; }
        out := out + [line];
      }
      if atEnd { return; }
    }
  }
}
