/** The launcher's output collector: lines cut from a stream that arrives in arbitrary blocks. */
module LineCollector {
  import opened Prelude

  const MAX_TOTAL: nat := 65_536
  const MAX_LINE: nat := 2048
  const NEWLINE: Byte := 10

  type Line = seq<Byte>

  // ---------------------------------------------------------------- the newline split of a whole stream

  /** The lines a newline ends, in order. */
  function Terminated(stream: seq<Byte>): seq<Line> {
    if stream == [] then []
    else
      var init, last := stream[..|stream| - 1], stream[|stream| - 1];
      if last == NEWLINE then Terminated(init) + [Tail(init)] else Terminated(init)
  }

  /** What follows the last newline. */
  function Tail(stream: seq<Byte>): Line {
    if stream == [] || stream[|stream| - 1] == NEWLINE then []
    else Tail(stream[..|stream| - 1]) + [stream[|stream| - 1]]
  }

  /** All lines of a stream: a nonempty unterminated tail is the last one. */
  function Lines(stream: seq<Byte>): seq<Line> {
    Terminated(stream) + if Tail(stream) == [] then [] else [Tail(stream)]
  }

  function Joined(lines: seq<Line>): seq<Byte> {
    if lines == [] then [] else lines[0] + [NEWLINE] + Joined(lines[1..])
  }

  lemma {:induction false} JoinedSnoc(lines: seq<Line>, line: Line)
    ensures Joined(lines + [line]) == Joined(lines) + line + [NEWLINE]
  {
    if lines == [] {
      assert Joined([line]) == line + [NEWLINE] + Joined([]);
    } else {
      assert (lines + [line])[1..] == lines[1..] + [line];
      JoinedSnoc(lines[1..], line);
    }
  }

  /** The split loses and invents nothing: its lines hold no newline and join to the stream again. */
  lemma {:induction false} SplitRoundTrip(stream: seq<Byte>)
    ensures Joined(Terminated(stream)) + Tail(stream) == stream
    ensures 10 !in Tail(stream) && forall i :: 0 <= i < |Terminated(stream)| ==> 10 !in Terminated(stream)[i]
  {
    if stream != [] {
      var init := stream[..|stream| - 1];
      SplitRoundTrip(init);
      if stream[|stream| - 1] == NEWLINE {
        JoinedSnoc(Terminated(init), Tail(init));
      }
    }
  }

  /** Bytes without a newline lengthen the tail and nothing else. */
  lemma {:induction false} TailGrows(stream: seq<Byte>, more: seq<Byte>)
    requires NEWLINE !in more
    ensures Tail(stream + more) == Tail(stream) + more && Terminated(stream + more) == Terminated(stream)
  {
    if more == [] {
      assert stream + more == stream;
    } else {
      var init, last := more[..|more| - 1], more[|more| - 1];
      assert (stream + more)[..|stream + more| - 1] == stream + init;
      assert last in more && forall x | x in init :: x in more;
      TailGrows(stream, init);
    }
  }

  lemma LineEnds(stream: seq<Byte>, line: Line)
    requires Tail(stream) == [] && NEWLINE !in line
    ensures Tail(stream + line + [NEWLINE]) == []
    ensures Terminated(stream + line + [NEWLINE]) == Terminated(stream) + [line]
  {
    TailGrows(stream, line);
    var all := stream + line + [NEWLINE];
    assert [] + line == line;
    assert all[..|all| - 1] == stream + line && all[|all| - 1] == NEWLINE;
  }

  /** There is only one way to cut a stream into newline-free lines and a newline-free tail. */
  lemma {:induction false} SplitUnique(lines: seq<Line>, tail: Line)
    requires NEWLINE !in tail && forall i :: 0 <= i < |lines| ==> NEWLINE !in lines[i]
    ensures Terminated(Joined(lines) + tail) == lines && Tail(Joined(lines) + tail) == tail
  {
    TailGrows(Joined(lines), tail);
    if lines != [] {
      var init, last := lines[..|lines| - 1], lines[|lines| - 1];
      SplitUnique(init, []);
      assert lines == init + [last] && Joined(init) + [] == Joined(init);
      JoinedSnoc(init, last);
      LineEnds(Joined(init), last);
    }
  }

  /** A stream that ends in a newline is its lines joined; any other ends in a line of its own that is not empty. */
  lemma LinesExact(stream: seq<Byte>)
    ensures var lines := Lines(stream);
            && (forall i :: 0 <= i < |lines| ==> 10 !in lines[i])
            && (if stream == [] || stream[|stream| - 1] == 10 then Joined(lines) == stream
                else
                  && lines != [] && lines[|lines| - 1] != []
                  && Joined(lines[..|lines| - 1]) + lines[|lines| - 1] == stream)
  {
    SplitRoundTrip(stream);
    var lines := Lines(stream);
    if stream == [] || stream[|stream| - 1] == 10 {
      assert Tail(stream) == [] && lines == Terminated(stream);
      assert Joined(Terminated(stream)) + [] == Joined(Terminated(stream));
    } else {
      assert lines[..|lines| - 1] == Terminated(stream);
    }
  }

  // ---------------------------------------------------------------- streams that are refused

  /** More bytes in all, or in one line, than the collector accepts. */
  ghost predicate Excessive(stream: seq<Byte>) {
    || |stream| > MAX_TOTAL
    || |Tail(stream)| > MAX_LINE
    || exists i :: 0 <= i < |Terminated(stream)| && |Terminated(stream)[i]| > MAX_LINE
  }

  lemma {:induction false} StaysExcessive(stream: seq<Byte>, more: seq<Byte>)
    requires Excessive(stream)
    ensures Excessive(stream + more)
  {
    if more == [] {
      assert stream + more == stream;
    } else {
      var init := more[..|more| - 1];
      var all := stream + more;
      StaysExcessive(stream, init);
      assert all[..|all| - 1] == stream + init;
      if exists i :: 0 <= i < |Terminated(stream + init)| && |Terminated(stream + init)[i]| > MAX_LINE {
        var i :| 0 <= i < |Terminated(stream + init)| && |Terminated(stream + init)[i]| > MAX_LINE;
        assert Terminated(all)[i] == Terminated(stream + init)[i];
      } else if |Tail(stream + init)| > MAX_LINE && more[|more| - 1] == NEWLINE {
        assert Terminated(all)[|Terminated(all)| - 1] == Tail(stream + init);
      }
    }
  }

  lemma ExcessiveMeansLines(stream: seq<Byte>)
    ensures Excessive(stream) <==>
            |stream| > 65_536 || exists i :: 0 <= i < |Lines(stream)| && |Lines(stream)[i]| > 2048
  {
    var lines := Lines(stream);
    if |Tail(stream)| > MAX_LINE {
      assert lines[|lines| - 1] == Tail(stream);
    }
    if exists i :: 0 <= i < |Terminated(stream)| && |Terminated(stream)[i]| > MAX_LINE {
      var i :| 0 <= i < |Terminated(stream)| && |Terminated(stream)[i]| > MAX_LINE;
      assert lines[i] == Terminated(stream)[i];
    }
  }

  // ---------------------------------------------------------------- the collector

  function Concat(blocks: seq<seq<Byte>>): seq<Byte> {
    if blocks == [] then [] else Concat(blocks[..|blocks| - 1]) + blocks[|blocks| - 1]
  }

  function FirstNewline(text: seq<Byte>): (at: nat)
    requires NEWLINE in text
    ensures at < |text| && text[at] == NEWLINE && NEWLINE !in text[..at]
  {
    if text[0] == NEWLINE then 0 else FirstNewline(text[1..]) + 1
  }

  /** What was cut so far and what is pending are the stream read so far, and all lines cut were short. */
  ghost predicate InStep(stream: seq<Byte>, cut: seq<Byte>, pending: seq<Byte>, lines: seq<Line>) {
    && stream == cut + pending
    && Tail(cut) == []
    && lines == Terminated(cut)
    && forall i :: 0 <= i < |lines| ==> |lines[i]| <= MAX_LINE
  }

  lemma OneLineCut(stream: seq<Byte>, cut: seq<Byte>, pending: seq<Byte>, lines: seq<Line>)
    requires InStep(stream, cut, pending, lines) && NEWLINE in pending
    ensures var at := FirstNewline(pending);
            var line := pending[..at];
            if |line| > MAX_LINE then Excessive(stream)
            else InStep(stream, cut + line + [NEWLINE], pending[at + 1..], lines + [line])
  {
    hide Terminated, Tail, Excessive;
    var at := FirstNewline(pending);
    var line, rest := pending[..at], pending[at + 1..];
    var upTo := cut + line + [NEWLINE];
    LineEnds(cut, line);
    assert pending == line + [NEWLINE] + rest;
    assert stream == upTo + rest;
    if |line| > MAX_LINE {
      LongLineExcessive(upTo, |lines|);
      StaysExcessive(upTo, rest);
    }
  }

  lemma LongLineExcessive(stream: seq<Byte>, i: nat)
    requires i < |Terminated(stream)| && |Terminated(stream)[i]| > MAX_LINE
    ensures Excessive(stream)
  {
  }

  /** With no newline pending, the pending bytes are the tail and the cut lines all the others. */
  lemma NothingLeftToCut(stream: seq<Byte>, cut: seq<Byte>, pending: seq<Byte>, lines: seq<Line>)
    requires InStep(stream, cut, pending, lines) && NEWLINE !in pending && |stream| <= MAX_TOTAL
    ensures Tail(stream) == pending && Terminated(stream) == lines
    ensures Excessive(stream) <==> |pending| > MAX_LINE
  {
    TailGrows(cut, pending);
  }

  class LaunchSummary {
    var invalid: bool
    var lines: seq<Line>

    constructor ()
      ensures !invalid && lines == []
    {
      invalid, lines := false, [];
    }

    /**
     Drains the stream block by block; `broken` says that the read after the last block raised.
     Whatever the blocks, the stream is refused exactly for its size or a long line, and otherwise
     its lines are delivered exactly.
     */
    method Read(blocks: seq<seq<Byte>>, broken: bool)
      requires !invalid && lines == []
      modifies this
      ensures var stream := Concat(blocks);
              && (invalid
                  <==> broken || |stream| > 65_536 || exists i :: 0 <= i < |Lines(stream)| && |Lines(stream)[i]| > 2048)
              && (!invalid ==> lines == Lines(stream))
    {
      ExcessiveMeansLines(Concat(blocks));
      var total, pending: seq<Byte> := 0, [];
      ghost var stream, cut: seq<Byte> := [], [];
      var i := 0;
      while i < |blocks|
        invariant 0 <= i <= |blocks| && stream == Concat(blocks[..i]) && total == |stream|
        invariant invalid <==> Excessive(stream)
        invariant !invalid ==> InStep(stream, cut, pending, lines) && NEWLINE !in pending
      {
        assert blocks[..i + 1][..i] == blocks[..i];
        ghost var before := stream;
        stream := stream + blocks[i];
        total := total + |blocks[i]|;
        if invalid {
          StaysExcessive(before, blocks[i]);
        }
        if total > MAX_TOTAL {
          invalid := true;
          pending := [];
        } else {
          pending := pending + blocks[i];
          assert !invalid ==> stream == cut + pending;
          cut, pending := CutLines(stream, cut, pending);
          if !invalid {
            NothingLeftToCut(stream, cut, pending, lines);
          }
          if |pending| > MAX_LINE {
            invalid := true;
            pending := [];
          }
        }
        i := i + 1;
      }
      assert blocks[..i] == blocks;
      if broken {
        invalid := true;
        return;
      }
      if !invalid {
        NothingLeftToCut(stream, cut, pending, lines);
      }
      if pending != [] {
        lines := lines + [pending];
      }
    }

    /** The inner loop: as long as a newline is pending, cut the line before it off. */
    method CutLines(ghost stream: seq<Byte>, ghost cut: seq<Byte>, pending: seq<Byte>)
      returns (ghost cut': seq<Byte>, rest: seq<Byte>)
      requires invalid ==> Excessive(stream)
      requires !invalid ==> InStep(stream, cut, pending, lines)
      modifies this
      ensures NEWLINE !in rest
      ensures invalid ==> Excessive(stream)
      ensures !invalid ==> InStep(stream, cut', rest, lines)
    {
      cut', rest := cut, pending;
      while NEWLINE in rest
        invariant invalid ==> Excessive(stream)
        invariant !invalid ==> InStep(stream, cut', rest, lines)
        decreases |rest|
      {
        var at := FirstNewline(rest);
        var line := rest[..at];
        if !invalid {
          OneLineCut(stream, cut', rest, lines);
        }
        cut' := cut' + line + [NEWLINE];
        rest := rest[at + 1..];
        if |line| > MAX_LINE {
          invalid := true;
        } else {
          lines := lines + [line];
        }
      }
    }
  }
}
