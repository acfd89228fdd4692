/** Cutting a client's byte stream into lines. Bytes arrive in arbitrary pieces;
    the loop removes complete lines from the client's buffer in place. */
module Framing {

  /** `dataBuffer.find('\n')`, with the length for npos. */
  function Find(s: string): (k: nat)
    ensures k <= |s|
    ensures forall j :: 0 <= j < k ==> s[j] != '\n'
    ensures k < |s| ==> s[k] == '\n'
  {
    if s == [] || s[0] == '\n' then 0 else 1 + Find(s[1..])
  }

  /** The complete lines of a text, without their newlines. */
  function Lines(s: string): seq<string>
    decreases |s|
  {
    var k := Find(s);
    if k == |s| then [] else [s[..k]] + Lines(s[k + 1..])
  }

  /** What follows the last newline. */
  function Residue(s: string): string
    decreases |s|
  {
    var k := Find(s);
    if k == |s| then s else Residue(s[k + 1..])
  }

  /** A line as it is handed to the parser: without one trailing carriage return. */
  function Stripped(line: string): (r: string)
    ensures line == r || line == r + ['\r']
    ensures line == r <==> line == [] || line[|line| - 1] != '\r'
  {
    if line != [] && line[|line| - 1] == '\r' then line[..|line| - 1] else line
  }

  function AllStripped(lines: seq<string>): (r: seq<string>)
    ensures |r| == |lines| && forall i :: 0 <= i < |r| ==> r[i] == Stripped(lines[i])
  {
    seq(|lines|, i requires 0 <= i < |lines| => Stripped(lines[i]))
  }

  function Joined(lines: seq<string>): string {
    if lines == [] then [] else lines[0] + ['\n'] + Joined(lines[1..])
  }

  ghost predicate NoNewline(s: string) {
    forall i :: 0 <= i < |s| ==> s[i] != '\n'
  }

  function Concat(chunks: seq<string>): string {
    if chunks == [] then [] else Concat(chunks[..|chunks| - 1]) + chunks[|chunks| - 1]
  }

  class ClientBuffer {
    var dataBuffer: string

    constructor ()
      ensures dataBuffer == []
    {
      dataBuffer := [];
    }

    /** One readiness event: append everything that can be read, then take out
        the complete lines. */
    method OnReadable(reads_: seq<string>) returns (lines: seq<string>)
      modifies this
      ensures lines == AllStripped(Lines(old(dataBuffer) + Concat(reads_)))
      ensures dataBuffer == Residue(old(dataBuffer) + Concat(reads_))
    {
      hide Lines, Residue, AllStripped;
      for i := 0 to |reads_|
        invariant dataBuffer == old(dataBuffer) + Concat(reads_[..i])
      {
        assert reads_[..i + 1][..i] == reads_[..i];
        dataBuffer := dataBuffer + reads_[i];
      }
      assert reads_[..|reads_|] == reads_;
      lines := TakeLines();
    }

    /** Remove complete lines from the buffer, front to back. */
    method TakeLines() returns (lines: seq<string>)
      modifies this
      ensures lines == AllStripped(Lines(old(dataBuffer)))
      ensures dataBuffer == Residue(old(dataBuffer))
    {
      hide Find, AllStripped, Lines, Residue;
      NothingYet();
      lines := [];
      ghost var taken: seq<string> := [];
      var pos := Find(dataBuffer);
      while pos != |dataBuffer|
        invariant pos == Find(dataBuffer)
        invariant Lines(old(dataBuffer)) == taken + Lines(dataBuffer)
        invariant Residue(old(dataBuffer)) == Residue(dataBuffer)
        invariant lines == AllStripped(taken)
        decreases |dataBuffer|
      {
        var line := dataBuffer[..pos];
        StripOne(taken, line);
        TakeOne(taken, dataBuffer);
        taken := taken + [line];
        dataBuffer := dataBuffer[pos + 1..];
        if line != [] && line[|line| - 1] == '\r' {
          line := line[..|line| - 1];
        }
        lines := lines + [line];
        pos := Find(dataBuffer);
      }
      NoneLeft(dataBuffer);
      assert taken + [] == taken;
    }
  }

  lemma NoneLeft(s: string)
    requires Find(s) == |s|
    ensures Lines(s) == [] && Residue(s) == s
  {
  }

  lemma TakeOne(taken: seq<string>, s: string)
    requires Find(s) < |s|
    ensures var k := Find(s);
            taken + Lines(s) == taken + [s[..k]] + Lines(s[k + 1..]) && Residue(s) == Residue(s[k + 1..])
  {
    hide Find;
    var k := Find(s);
    assert Lines(s) == [s[..k]] + Lines(s[k + 1..]);
    Regroup(taken, [s[..k]], Lines(s[k + 1..]));
  }

  lemma StripOne(lines: seq<string>, line: string)
    ensures AllStripped(lines + [line]) == AllStripped(lines) + [Stripped(line)]
  {
  }

  lemma StripAppend(a: seq<string>, b: seq<string>)
    ensures AllStripped(a + b) == AllStripped(a) + AllStripped(b)
  {
  }

  // ----- the split is the split

  lemma FindIs(s: string, k: nat)
    requires k <= |s| && NoNewline(s[..k]) && (k < |s| ==> s[k] == '\n')
    ensures Find(s) == k
  {
    forall i | 0 <= i < k ensures s[i] != '\n' {
      assert s[..k][i] == s[i];
    }
    assert k < |s| ==> s[k] == '\n';
  }

  /** Lines, their newlines and the residue are the text again. */
  lemma {:induction false} LinesReassemble(s: string)
    ensures Joined(Lines(s)) + Residue(s) == s
    decreases |s|
  {
    hide Find;
    var k := Find(s);
    if k < |s| {
      var tail := s[k + 1..];
      LinesReassemble(tail);
      assert Lines(s)[1..] == Lines(tail);
      assert Joined(Lines(s)) == s[..k] + ['\n'] + Joined(Lines(tail));
      assert s == s[..k] + ['\n'] + tail;
      Regroup(s[..k] + ['\n'], Joined(Lines(tail)), Residue(tail));
    }
  }

  lemma Regroup<T>(a: seq<T>, b: seq<T>, c: seq<T>)
    ensures a + b + c == a + (b + c)
  {
  }

  /** No line and no residue holds a newline. */
  lemma {:induction false} LinesHaveNoNewline(s: string)
    ensures NoNewline(Residue(s))
    ensures forall i :: 0 <= i < |Lines(s)| ==> NoNewline(Lines(s)[i])
    decreases |s|
  {
    var k := Find(s);
    if k < |s| {
      LinesHaveNoNewline(s[k + 1..]);
    }
  }

  /** And there is no other way to cut it. */
  lemma {:induction false} LinesUnique(lines: seq<string>, rest: string)
    requires NoNewline(rest) && forall i :: 0 <= i < |lines| ==> NoNewline(lines[i])
    ensures Lines(Joined(lines) + rest) == lines && Residue(Joined(lines) + rest) == rest
  {
    var s := Joined(lines) + rest;
    if lines == [] {
      assert s == rest;
      FindIs(s, |s|);
    } else {
      var k := |lines[0]|;
      var tail := Joined(lines[1..]) + rest;
      assert s == lines[0] + ['\n'] + tail;
      assert s[..k] == lines[0] && s[k + 1..] == tail;
      FindIs(s, k);
      LinesUnique(lines[1..], rest);
    }
  }

  lemma {:induction false} JoinedAppend(a: seq<string>, b: seq<string>)
    ensures Joined(a + b) == Joined(a) + Joined(b)
  {
    if a == [] {
      assert a + b == b;
    } else {
      JoinedAppend(a[1..], b);
      assert (a + b)[1..] == a[1..] + b;
      assert Joined(a + b) == a[0] + ['\n'] + (Joined(a[1..]) + Joined(b));
    }
  }

  /** Taking lines out early changes nothing. */
  lemma DrainThenAppend(a: string, b: string)
    ensures Lines(a + b) == Lines(a) + Lines(Residue(a) + b)
    ensures Residue(a + b) == Residue(Residue(a) + b)
  {
    hide Lines, Residue, Joined, NoNewline;
    var c := Residue(a) + b;
    LinesReassemble(a);
    LinesReassemble(c);
    LinesHaveNoNewline(a);
    LinesHaveNoNewline(c);
    JoinedAppend(Lines(a), Lines(c));
    Regroup(Joined(Lines(a)), Residue(a), b);
    Regroup(Joined(Lines(a)), Joined(Lines(c)), Residue(c));
    LinesUnique(Lines(a) + Lines(c), Residue(c));
  }

  /** The stream is its pieces in order, wherever they are cut. */
  lemma {:induction false} ConcatAppend(a: seq<string>, b: seq<string>)
    ensures Concat(a + b) == Concat(a) + Concat(b)
    ensures |a| == 1 ==> Concat(a) == a[0]
  {
    if b == [] {
      assert a + b == a;
    } else {
      ConcatAppend(a, b[..|b| - 1]);
      assert (a + b)[..|a + b| - 1] == a + b[..|b| - 1];
      Regroup(Concat(a), Concat(b[..|b| - 1]), b[|b| - 1]);
    }
  }

  /** The lines delivered over a series of events, each bringing some bytes. */
  function Delivered(events: seq<string>): seq<string> {
    if events == [] then []
    else
      var before := events[..|events| - 1];
      Delivered(before) + AllStripped(Lines(Left(before) + events[|events| - 1]))
  }

  /** What the client's buffer holds after those events. */
  function Left(events: seq<string>): string {
    if events == [] then []
    else Residue(Left(events[..|events| - 1]) + events[|events| - 1])
  }

  /** Main result: however the bytes are cut into events, the lines delivered are
      those of the whole stream. */
  lemma {:induction false} StreamingIsBatch(events: seq<string>)
    ensures Delivered(events) == AllStripped(Lines(Concat(events)))
    ensures Left(events) == Residue(Concat(events))
  {
    hide Lines, Residue, AllStripped;
    if events == [] {
      NothingYet();
    } else {
      var before, last := events[..|events| - 1], events[|events| - 1];
      StreamingIsBatch(before);
      DrainThenAppend(Concat(before), last);
      StripAppend(Lines(Concat(before)), Lines(Left(before) + last));
    }
  }

  lemma NothingYet()
    ensures AllStripped([]) == [] && AllStripped(Lines([])) == [] && Residue([]) == []
  {
    assert Find([]) == 0;
  }
}
