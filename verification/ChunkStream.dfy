/** One chunk's buffers in merge: the two input streams, and the output that is written over the part
    of the nexts buffer that has been read (src/merge.c:18-45, 222-316, 386-444). */
module ChunkStreams {
  import opened RunLength
  import opened JointWalk
  import opened ChunkStatus

  lemma DrainedStays(w: Walk)
    requires w.cursor.nextRem == 0
    ensures w.nexts == [] ==> NextStep(w) == Done
  {
  }

  /** What a reader has in its buffer and what is left in its file. */
  ghost predicate Reads(buf: seq<RankRun>, pos: int, len: int, filepos: int, file: seq<RankRun>, ahead: seq<RankRun>)
  {
    && -1 <= pos <= len <= |buf| && 0 <= len && -1 <= filepos
    && (pos == -1 || filepos == -1 ==> file == [])
    && ahead == if pos == -1 then [] else buf[pos..len] + file
  }

  lemma ReadsStart(buf: seq<RankRun>, file: seq<RankRun>)
    ensures Reads(buf, 0, 0, 0, file, file)
  {
  }

  lemma ReadsBounds(buf: seq<RankRun>, pos: int, len: int, filepos: int, file: seq<RankRun>, ahead: seq<RankRun>)
    requires Reads(buf, pos, len, filepos, file, ahead)
    ensures -1 <= pos <= len <= |buf| && 0 <= len && -1 <= filepos
    ensures pos == -1 ==> ahead == []
    ensures pos == len ==> ahead == file
    ensures filepos == -1 ==> file == []
  {
  }

  lemma ReadsDrained(buf: seq<RankRun>, len: int, filepos: int)
    requires 0 <= len <= |buf| && -1 <= filepos
    ensures Reads(buf, -1, len, filepos, [], [])
  {
  }

  /** After a refill the buffer holds the next stretch of the file. */
  lemma ReadsRefilled(buf: seq<RankRun>, got: nat, filepos: int, file: seq<RankRun>, rest: seq<RankRun>)
    requires got <= |buf| && got <= |file| && buf[..got] == file[..got] && rest == file[got..]
    requires -1 <= filepos && (filepos == -1 ==> rest == [])
    ensures Reads(buf, 0, got, filepos, rest, file)
  {
    assert buf[0..got] == file[..got];
  }

  /** Taking the record under the cursor. */
  lemma ReadsNext(buf: seq<RankRun>, pos: int, len: int, filepos: int, file: seq<RankRun>, ahead: seq<RankRun>)
    requires Reads(buf, pos, len, filepos, file, ahead) && 0 <= pos < len
    ensures ahead != [] && ahead[0] == buf[pos]
    ensures Reads(buf, pos + 1, len, filepos, file, ahead[1..])
  {
  }

  /** Writing below the read cursor, or anywhere once drained, changes nothing that is still to be read. */
  lemma ReadsAfterWrite(buf: seq<RankRun>, pos: int, len: int, filepos: int, file: seq<RankRun>, ahead: seq<RankRun>,
                        k: nat, v: RankRun)
    requires Reads(buf, pos, len, filepos, file, ahead) && k < |buf| && (pos == -1 || k < pos)
    ensures Reads(buf[k := v], pos, len, filepos, file, ahead)
  {
    if pos != -1 {
      assert buf[k := v][pos..len] == buf[pos..len];
    }
  }

  /** The pending output lies at the front of the buffer, in slots that are free; flushed output and
      pending output together are everything that was put. */
  ghost predicate Overlays(buf: seq<RankRun>, pos: int, outPos: int, outFile: seq<RankRun>, output: seq<RankRun>)
  {
    && 0 <= outPos <= (if pos == -1 then |buf| else pos) <= |buf|
    && output == outFile + buf[..outPos]
  }

  lemma OverlayBounds(buf: seq<RankRun>, pos: int, outPos: int, outFile: seq<RankRun>, output: seq<RankRun>)
    requires Overlays(buf, pos, outPos, outFile, output)
    ensures 0 <= outPos <= (if pos == -1 then |buf| else pos) <= |buf|
    ensures output == outFile + buf[..outPos] && (outPos == 0 ==> output == outFile)
  {
  }

  lemma OverlayEmpty(buf: seq<RankRun>, pos: int, output: seq<RankRun>)
    requires -1 <= pos <= |buf|
    ensures Overlays(buf, pos, 0, output, output)
  {
  }

  /** Reading on only frees more slots. */
  lemma OverlayReadOn(buf: seq<RankRun>, pos: int, pos': int, outPos: int, outFile: seq<RankRun>, output: seq<RankRun>)
    requires Overlays(buf, pos, outPos, outFile, output)
    requires pos' == -1 || (pos != -1 && pos <= pos' <= |buf|)
    ensures Overlays(buf, pos', outPos, outFile, output)
  {
  }

  lemma OverlayPut(buf: seq<RankRun>, pos: int, outPos: int, outFile: seq<RankRun>, output: seq<RankRun>, v: RankRun)
    requires Overlays(buf, pos, outPos, outFile, output) && outPos < if pos == -1 then |buf| else pos
    ensures Overlays(buf[outPos := v], pos, outPos + 1, outFile, output + [v])
  {
    assert buf[outPos := v][..outPos + 1] == buf[..outPos] + [v];
  }

  class ChunkStream {
    const nextsBuf: array<RankRun>
    const curBuf: array<RankRun>

    var nextsPos: int        // read cursor; -1 once drained
    var nextsLen: int        // records in the buffer
    var nextsFilepos: int    // records read so far; -1 once the end of the file was hit
    var nextsFile: seq<RankRun>   // the part of nexts_<id> not read yet
    var outPos: int          // write cursor of the output that lies over the front of nextsBuf
    var outFile: seq<RankRun>     // what global_<id> holds
    var curPos: int
    var curLen: int
    var curFilepos: int
    var curFile: seq<RankRun>
    var cursor: Cursor

    // What private buffers would hold: the input still ahead and every record put so far.
    ghost var nextsAhead: seq<RankRun>
    ghost var currentsAhead: seq<RankRun>
    ghost var output: seq<RankRun>

    /** The input as the walk sees it. */
    ghost function TheWalk(): Walk
      reads this
    {
      Walk(nextsAhead, currentsAhead, cursor)
    }

    ghost predicate NextsValid()
      reads `nextsPos, `nextsLen, `nextsFilepos, `nextsFile, `nextsAhead, nextsBuf
    {
      1 <= nextsBuf.Length && Reads(nextsBuf[..], nextsPos, nextsLen, nextsFilepos, nextsFile, nextsAhead)
    }

    ghost predicate CurrentsValid()
      reads `curPos, `curLen, `curFilepos, `curFile, `currentsAhead, curBuf
    {
      1 <= curBuf.Length && Reads(curBuf[..], curPos, curLen, curFilepos, curFile, currentsAhead)
    }

    /** The output lies in slots that have been read. */
    ghost predicate OutputValid()
      reads `nextsPos, `outPos, `outFile, `output, nextsBuf
    {
      Overlays(nextsBuf[..], nextsPos, outPos, outFile, output)
    }

    ghost predicate Valid()
      reads this, nextsBuf, curBuf
    {
      nextsBuf != curBuf && NextsValid() && CurrentsValid() && OutputValid()
    }

    /** A record may be put: the read cursor has moved since the last refill. */
    ghost predicate Ready()
      reads this
    {
      nextsPos != 0
    }

    /** Nothing read and nothing put yet. */
    ghost predicate Fresh()
      reads this, nextsBuf, curBuf
    {
      Valid() && nextsPos == nextsLen && curPos == curLen && cursor == START && output == []
    }

    constructor (nexts: seq<RankRun>, currents: seq<RankRun>, nextsCapacity: nat, curCapacity: nat)
      requires 1 <= nextsCapacity && 1 <= curCapacity
      ensures Valid() && fresh(this) && fresh(nextsBuf) && fresh(curBuf)
      ensures Fresh() && TheWalk() == Walk(nexts, currents, START)
    {
      nextsBuf := new RankRun[nextsCapacity](_ => RankRun(0, 0));
      curBuf := new RankRun[curCapacity](_ => RankRun(0, 0));
      nextsPos, nextsLen, nextsFilepos, nextsFile := 0, 0, 0, nexts;
      outPos, outFile := 0, [];
      curPos, curLen, curFilepos, curFile := 0, 0, 0, currents;
      cursor, nextsAhead, currentsAhead, output := START, nexts, currents, [];
      new;
      ReadsStart(nextsBuf[..], nexts);
      ReadsStart(curBuf[..], currents);
      OverlayEmpty(nextsBuf[..], 0, []);
    }

    method FlushOutput()
      requires 0 <= outPos <= nextsBuf.Length
      modifies `outFile
      ensures outFile == old(outFile) + nextsBuf[..outPos]
    {
      if outPos > 0 {
        outFile := outFile + nextsBuf[..outPos];
      }
    }

    /** Write one output record over consumed input; flush first when the next slot is not free. */
    method PutCurrent(rank: nat, count: nat)
      requires Valid() && Ready()
      modifies `outPos, `outFile, `output, nextsBuf
      ensures Valid()
      ensures output == old(output) + [RankRun(I40(rank), count)]
    {
      hide Reads, Overlays, CurrentsValid;
      ReadsBounds(nextsBuf[..], nextsPos, nextsLen, nextsFilepos, nextsFile, nextsAhead);
      OverlayBounds(nextsBuf[..], nextsPos, outPos, outFile, output);
      var avail := if nextsPos == -1 then nextsBuf.Length else nextsPos;
      if outPos + 1 > avail {
        FlushOutput();
        outPos := 0;
        OverlayEmpty(nextsBuf[..], nextsPos, output);
      }
      ghost var before := nextsBuf[..];
      ReadsAfterWrite(before, nextsPos, nextsLen, nextsFilepos, nextsFile, nextsAhead, outPos,
                      RankRun(I40(rank), count));
      OverlayPut(before, nextsPos, outPos, outFile, output, RankRun(I40(rank), count));
      nextsBuf[outPos] := RankRun(I40(rank), count);
      assert nextsBuf[..] == before[outPos := RankRun(I40(rank), count)];
      outPos := outPos + 1;
      output := output + [RankRun(I40(rank), count)];
    }

    method WriteOutput(rank: nat, count: nat)
      requires Valid() && Ready()
      modifies `outPos, `outFile, `output, nextsBuf
      ensures Valid()
      ensures output == old(output) + Encode(Run(rank, count))
    {
      if count < COUNT_ESCAPE {
        PutCurrent(rank, count);
      } else {
        PutCurrent(rank, COUNT_ESCAPE);
        PutCurrent(count, 0);
      }
    }

    /** The end of the nexts file was hit before: from now on the stream is drained. */
    method DrainNexts()
      requires NextsValid() && OutputValid() && nextsPos == nextsLen && nextsFilepos == -1
      modifies `nextsPos
      ensures NextsValid() && OutputValid() && nextsPos == -1 && nextsAhead == []
    {
      hide Reads, Overlays;
      ReadsBounds(nextsBuf[..], nextsPos, nextsLen, nextsFilepos, nextsFile, nextsAhead);
      OverlayReadOn(nextsBuf[..], nextsPos, -1, outPos, outFile, output);
      nextsPos := -1;
      ReadsDrained(nextsBuf[..], nextsLen, nextsFilepos);
    }

    /** Read the next stretch of the nexts file over a buffer whose output has been flushed. */
    method LoadNexts() returns (r: Status)
      requires 1 <= nextsBuf.Length && 0 <= nextsLen <= nextsBuf.Length && 0 <= nextsFilepos
      requires nextsAhead == nextsFile && outPos == 0 && output == outFile
      modifies `nextsPos, `nextsLen, `nextsFilepos, `nextsFile, nextsBuf
      ensures NextsValid() && OutputValid()
      ensures r == if nextsAhead == [] then EMPTY else SUCCESS
      ensures if r == SUCCESS then nextsPos == 0 < nextsLen else nextsPos == -1
    {
      hide Reads, Overlays;
      var got, rest := Fread(nextsBuf, nextsFile);
      if got > 0 {
        nextsPos, nextsLen := 0, got;
        nextsFilepos := nextsFilepos + got;
        nextsFile := rest;
        if got < nextsBuf.Length {
          nextsFilepos := -1;
        }
        ReadsRefilled(nextsBuf[..], got, nextsFilepos, nextsAhead, nextsFile);
        OverlayEmpty(nextsBuf[..], 0, output);
        return SUCCESS;
      }
      nextsFilepos, nextsPos := -1, -1;
      ReadsDrained(nextsBuf[..], nextsLen, nextsFilepos);
      OverlayEmpty(nextsBuf[..], -1, output);
      r := EMPTY;
    }

    /** Refill the nexts buffer; the output that lies in it is flushed first. */
    method RefillNexts() returns (r: Status)
      requires Valid() && nextsPos == nextsLen
      modifies `nextsPos, `nextsLen, `nextsFilepos, `nextsFile, `outPos, `outFile, nextsBuf
      ensures Valid()
      ensures r == SUCCESS ==> nextsPos == 0 < nextsLen
      ensures r != SUCCESS ==> r == EMPTY && nextsPos == -1
      ensures r == EMPTY <==> nextsAhead == []
    {
      hide Reads, Overlays, CurrentsValid;
      if nextsFilepos == -1 {
        DrainNexts();
        return EMPTY;
      }
      ReadsBounds(nextsBuf[..], nextsPos, nextsLen, nextsFilepos, nextsFile, nextsAhead);
      OverlayBounds(nextsBuf[..], nextsPos, outPos, outFile, output);
      if outPos > 0 {
        FlushOutput();
        outPos := 0;
      }
      r := LoadNexts();
    }

    method RefillCurrents() returns (r: Status)
      requires Valid() && curPos == curLen
      modifies `curPos, `curLen, `curFilepos, `curFile, curBuf
      ensures Valid()
      ensures r == SUCCESS ==> curPos == 0 < curLen
      ensures r != SUCCESS ==> r == EMPTY && curPos == -1
      ensures r == EMPTY <==> currentsAhead == []
    {
      hide Reads, NextsValid, OutputValid;
      ReadsBounds(curBuf[..], curPos, curLen, curFilepos, curFile, currentsAhead);
      if curFilepos == -1 {
        curPos := -1;
        ReadsDrained(curBuf[..], curLen, curFilepos);
        return EMPTY;
      }
      var got, rest := Fread(curBuf, curFile);
      if got > 0 {
        curPos, curLen := 0, got;
        curFilepos := curFilepos + got;
        curFile := rest;
        if got < curBuf.Length {
          curFilepos := -1;
        }
        ReadsRefilled(curBuf[..], got, curFilepos, currentsAhead, curFile);
        return SUCCESS;
      }
      curFilepos, curPos := -1, -1;
      ReadsDrained(curBuf[..], curLen, curFilepos);
      return EMPTY;
    }

    /** get_phys_rankrun on the nexts stream. */
    method GetNextsRecord() returns (r: Status, out: RankRun)
      requires Valid()
      modifies `nextsPos, `nextsLen, `nextsFilepos, `nextsFile, `nextsAhead, `outPos, `outFile, nextsBuf
      ensures Valid() && Ready() && (r == SUCCESS || r == EMPTY)
      ensures r == EMPTY <==> old(nextsAhead) == []
      ensures r == EMPTY ==> nextsAhead == []
      ensures r == SUCCESS ==> [out] + nextsAhead == old(nextsAhead)
      decreases if 0 <= nextsPos < nextsLen then 0 else 1
    {
      hide Reads, Overlays, CurrentsValid;
      ReadsBounds(nextsBuf[..], nextsPos, nextsLen, nextsFilepos, nextsFile, nextsAhead);
      out := RankRun(0, 0);
      if nextsPos == -1 {
        return EMPTY, out;
      }
      if nextsPos < nextsLen {
        ReadsNext(nextsBuf[..], nextsPos, nextsLen, nextsFilepos, nextsFile, nextsAhead);
        OverlayReadOn(nextsBuf[..], nextsPos, nextsPos + 1, outPos, outFile, output);
        out := nextsBuf[nextsPos];
        nextsPos := nextsPos + 1;
        nextsAhead := nextsAhead[1..];
        return SUCCESS, out;
      }
      var rr := RefillNexts();
      if rr == SUCCESS {
        r, out := GetNextsRecord();
      } else {
        r := rr;
      }
    }

    /** get_phys_rankrun on the currents stream. */
    method GetCurrentsRecord() returns (r: Status, out: RankRun)
      requires Valid()
      modifies `curPos, `curLen, `curFilepos, `curFile, `currentsAhead, curBuf
      ensures Valid() && (r == SUCCESS || r == EMPTY)
      ensures r == EMPTY <==> old(currentsAhead) == []
      ensures r == EMPTY ==> currentsAhead == []
      ensures r == SUCCESS ==> [out] + currentsAhead == old(currentsAhead)
      decreases if 0 <= curPos < curLen then 0 else 1
    {
      hide Reads, NextsValid, OutputValid;
      ReadsBounds(curBuf[..], curPos, curLen, curFilepos, curFile, currentsAhead);
      out := RankRun(0, 0);
      if curPos == -1 {
        return EMPTY, out;
      }
      if curPos < curLen {
        ReadsNext(curBuf[..], curPos, curLen, curFilepos, curFile, currentsAhead);
        out := curBuf[curPos];
        curPos := curPos + 1;
        currentsAhead := currentsAhead[1..];
        return SUCCESS, out;
      }
      var rr := RefillCurrents();
      if rr == SUCCESS {
        r, out := GetCurrentsRecord();
      } else {
        r := rr;
      }
    }

    /** decode_rankrun on the nexts stream; an escape pair may straddle a refill. */
    method DecodeNexts() returns (r: Status, rank: nat, count: nat)
      requires Valid()
      modifies `nextsPos, `nextsLen, `nextsFilepos, `nextsFile, `nextsAhead, `outPos, `outFile, nextsBuf
      ensures Valid() && Ready()
      ensures DecodeOne(old(nextsAhead)) ==
              match r
              case SUCCESS => Got(Run(rank, count), nextsAhead)
              case EMPTY => Drained
              case FAILURE => Truncated
      ensures r == EMPTY ==> nextsAhead == []
    {
      hide NextsValid, CurrentsValid, OutputValid;
      var raw;
      r, raw := GetNextsRecord();
      rank, count := 0, 0;
      if r != SUCCESS {
        return;
      }
      rank := raw.rank;
      if raw.count != COUNT_ESCAPE {
        count := raw.count;
      } else {
        var r', ov := GetNextsRecord();
        if r' != SUCCESS {
          return FAILURE, rank, count;
        }
        count := ov.rank;
      }
    }

    /** decode_rankrun on the currents stream. */
    method DecodeCurrents() returns (r: Status, rank: nat, count: nat)
      requires Valid()
      modifies `curPos, `curLen, `curFilepos, `curFile, `currentsAhead, curBuf
      ensures Valid()
      ensures DecodeOne(old(currentsAhead)) ==
              match r
              case SUCCESS => Got(Run(rank, count), currentsAhead)
              case EMPTY => Drained
              case FAILURE => Truncated
    {
      hide NextsValid, CurrentsValid, OutputValid;
      var raw;
      r, raw := GetCurrentsRecord();
      rank, count := 0, 0;
      if r != SUCCESS {
        return;
      }
      rank := raw.rank;
      if raw.count != COUNT_ESCAPE {
        count := raw.count;
      } else {
        var r', ov := GetCurrentsRecord();
        if r' != SUCCESS {
          return FAILURE, rank, count;
        }
        count := ov.rank;
      }
    }

    /** next_triplet: one step of the walk, whatever the buffers hold and wherever they are cut. */
    method NextTriplet() returns (r: Status, t: Triplet)
      requires Valid() && (Ready() || cursor.nextRem == 0)
      modifies `nextsPos, `nextsLen, `nextsFilepos, `nextsFile, `nextsAhead, `outPos, `outFile, nextsBuf
      modifies `curPos, `curLen, `curFilepos, `curFile, `currentsAhead, curBuf, `cursor
      ensures Valid() && Ready()
      ensures NextStep(old(TheWalk())) ==
              match r
              case SUCCESS => Step(t, TheWalk())
              case EMPTY => Done
              case FAILURE => Failed
      ensures r == EMPTY ==> NextStep(TheWalk()) == Done
    {
      hide NextsValid, CurrentsValid, OutputValid, DecodeOne;
      t := Triplet(0, 0, 0);
      if cursor.nextRem == 0 {
        var rk, cnt;
        r, rk, cnt := DecodeNexts();
        if r != SUCCESS {
          DrainedStays(TheWalk());
          return;
        }
        cursor := cursor.(nextRank := rk, nextRem := cnt);
      }
      if cursor.curRem == 0 {
        var rk, cnt;
        r, rk, cnt := DecodeCurrents();
        if r != SUCCESS {
          return FAILURE, t;
        }
        cursor := cursor.(curRank := rk, curRem := cnt);
      }
      var take := if cursor.curRem < cursor.nextRem then cursor.curRem else cursor.nextRem;
      t := Triplet(cursor.curRank, cursor.nextRank, take);
      cursor := cursor.(curRem := cursor.curRem - take, nextRem := cursor.nextRem - take);
      r := SUCCESS;
    }
  }

  /** fread into the whole buffer. */
  method Fread(buf: array<RankRun>, file: seq<RankRun>) returns (got: nat, rest: seq<RankRun>)
    modifies buf
    ensures got == (if |file| < buf.Length then |file| else buf.Length)
    ensures buf[..got] == file[..got] && rest == file[got..]
  {
    got := if |file| < buf.Length then |file| else buf.Length;
    forall k | 0 <= k < got {
      buf[k] := file[k];
    }
    rest := file[got..];
  }
}
