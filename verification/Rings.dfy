/** The two rings whose indices are 32-bit counters that run on and wrap: pipes (pipe.c:78-121) and the
    console's input line (console.c:187-263). The ghost fields keep the whole streams; the counters
    are what remains of their lengths modulo 2^32. */
module Rings {
  import opened Common

  const PIPESIZE := 512
  const INPUT_BUF := 128
  const CTRL_D := '\U{4}'
  const CTRL_H := '\U{8}'
  const CTRL_P := '\U{10}'
  const CTRL_U := '\U{15}'
  const DELETE := '\U{7F}'

  /** Counters that are less than 2^32 apart tell their distance, and where they are in a ring whose size
      divides 2^32. */
  lemma WrapDistance(a: nat, b: nat)
    requires a <= b < a + TWO32
    ensures Wrap(Wrap(b) - Wrap(a)) == b - a
    ensures Wrap(a) == Wrap(b) <==> a == b
  {
    var d := b - a;
    assert (Wrap(b) - Wrap(a) - d) % TWO32 == 0 by {
      assert Wrap(b) == b - b / TWO32 * TWO32 && Wrap(a) == a - a / TWO32 * TWO32;
      assert Wrap(b) - Wrap(a) - d == (a / TWO32 - b / TWO32) * TWO32;
      Multiple(a / TWO32 - b / TWO32);
    }
  }

  lemma Multiple(k: int)
    ensures k * TWO32 % TWO32 == 0
  {
  }

  lemma WrapPlace(a: int, n: int)
    requires n == PIPESIZE || n == INPUT_BUF
    ensures Wrap(a) % n == a % n
  {
    var k := a / TWO32;
    assert a == Wrap(a) + k * TWO32;
    if n == PIPESIZE {
      assert a == Wrap(a) + k * 0x80_0000 * PIPESIZE;
    } else {
      assert a == Wrap(a) + k * 0x200_0000 * INPUT_BUF;
    }
  }

  lemma WrapOn(a: int, b: int)
    ensures Wrap(Wrap(a) + b) == Wrap(a + b)
  {
    var k := a / TWO32;
    assert Wrap(a) + b == a + b - k * TWO32;
    assert (a + b - k * TWO32) % TWO32 == (a + b) % TWO32 by { Shift(a + b, k); }
  }

  lemma Shift(n: int, k: int)
    ensures (n - k * TWO32) % TWO32 == n % TWO32
  {
  }

  lemma PlacesDiffer(a: int, b: int, n: int)
    requires n == PIPESIZE || n == INPUT_BUF
    requires a < b < a + n
    ensures a % n != b % n
  {
  }

  // ---- Pipes ---------------------------------------------------------------------------------

  datatype WriteResult = Wrote | Blocked(at: nat) | Broken(at: nat)
  datatype ReadResult = ReadBytes(bytes: seq<char>) | Empty | Killed

  class Pipe {
    const data: array<char>
    var nread: nat
    var nwrite: nat
    var readopen: bool
    var writeopen: bool
    ghost var sent: seq<char>
    ghost var taken: nat

    /** What has been taken is a prefix of what was sent; the rest, at most PIPESIZE bytes, is in the
        ring. */
    ghost predicate Valid()
      reads this, data
    {
      && data.Length == PIPESIZE && taken <= |sent| <= taken + PIPESIZE
      && nread == Wrap(taken) && nwrite == Wrap(|sent|)
      && forall k :: taken <= k < |sent| ==> data[k % PIPESIZE] == sent[k]
    }

    constructor ()
      ensures Valid() && sent == [] && taken == 0 && readopen && writeopen && fresh(data)
    {
      data := new char[PIPESIZE];
      nread, nwrite, readopen, writeopen := 0, 0, true, true;
      sent, taken := [], 0;
    }

    /** The places free in the ring. */
    ghost function Room(): (n: int)
      reads this
    {
      PIPESIZE - (|sent| - taken)
    }

    /** pipewrite from byte i of addr on. It writes all if that fits. Otherwise it stops where the room ends: it
        fails if the writer is killed or nobody can read, and else sleeps until it is woken and goes on from
        there. */
    method Write(addr: seq<char>, i: nat, killed: bool) returns (r: WriteResult)
      requires Valid() && i <= |addr|
      modifies this, data
      ensures Valid() && taken == old(taken) && nread == old(nread)
      ensures r.Wrote? <==> |addr| - i <= old(Room())
      ensures r.Wrote? ==> sent == old(sent) + addr[i..]
      ensures !r.Wrote? ==> r.at == i + old(Room()) && i <= r.at < |addr| && sent == old(sent) + addr[i..r.at] && Room() == 0
      ensures r.Broken? <==> !r.Wrote? && (killed || !readopen)
      ensures readopen == old(readopen) && writeopen == old(writeopen)
    {
      hide Wrap;
      var j := i;
      while j < |addr|
        invariant i <= j <= |addr| && Valid() && taken == old(taken) && nread == old(nread)
        invariant sent == old(sent) + addr[i..j]
        invariant readopen == old(readopen) && writeopen == old(writeopen)
      {
        WrapDistance(taken, |sent|);
        WrapDistance(|sent|, taken + PIPESIZE);
        WrapOn(taken, PIPESIZE);
        if nwrite == Wrap(nread + PIPESIZE) {
          if !readopen || killed { return Broken(j); }
          return Blocked(j);
        }
        WrapPlace(|sent|, PIPESIZE);
        WrapOn(|sent|, 1);
        forall k | taken <= k < |sent| ensures k % PIPESIZE != |sent| % PIPESIZE { PlacesDiffer(k, |sent|, PIPESIZE); }
        data[nwrite % PIPESIZE] := addr[j];
        nwrite := Wrap(nwrite + 1);
        sent := sent + [addr[j]];
        assert addr[i..j + 1] == addr[i..j] + [addr[j]];
        j := j + 1;
      }
      assert addr[i..j] == addr[i..];
      return Wrote;
    }

    /** piperead of n bytes: what comes next in the stream, as much of it as there is. */
    method Read(n: nat, killed: bool) returns (r: ReadResult)
      requires Valid()
      modifies this
      ensures Valid() && sent == old(sent) && nwrite == old(nwrite) && readopen == old(readopen)
      ensures writeopen == old(writeopen)
      ensures r.Empty? || r.Killed? <==> old(taken) == |sent| && writeopen
      ensures r.Killed? <==> old(taken) == |sent| && writeopen && killed
      ensures !r.ReadBytes? ==> taken == old(taken)
      ensures r.ReadBytes? ==> taken == old(taken) + |r.bytes| && r.bytes == sent[old(taken)..taken]
      ensures r.ReadBytes? ==> |r.bytes| == if n < |sent| - old(taken) then n else |sent| - old(taken)
    {
      hide Wrap;
      WrapDistance(taken, |sent|);
      if nread == nwrite && writeopen { return if killed then Killed else Empty; }
      var bytes: seq<char> := [];
      while |bytes| < n
        invariant |bytes| <= n && Valid() && sent == old(sent) && nwrite == old(nwrite)
        invariant readopen == old(readopen) && writeopen == old(writeopen)
        invariant taken == old(taken) + |bytes| && bytes == sent[old(taken)..taken]
        decreases n - |bytes|
      {
        WrapDistance(taken, |sent|);
        if nread == nwrite { break; }
        WrapPlace(taken, PIPESIZE);
        WrapOn(taken, 1);
        bytes := bytes + [data[nread % PIPESIZE]];
        nread := Wrap(nread + 1);
        taken := taken + 1;
      }
      return ReadBytes(bytes);
    }
  }

  // ---- Console input -------------------------------------------------------------------------

  class Input {
    const buf: array<char>
    var r: nat
    var w: nat
    var e: nat
    /** Everything typed and not erased, of which the first `read` characters have been read and the first
        `committed` may be. */
    ghost var text: seq<char>
    ghost var read: nat
    ghost var committed: nat

    ghost predicate Valid()
      reads this, buf
    {
      && buf.Length == INPUT_BUF && read <= committed <= |text| <= read + INPUT_BUF
      && r == Wrap(read) && w == Wrap(committed) && e == Wrap(|text|)
      && (forall k :: read <= k < |text| ==> buf[k % INPUT_BUF] == text[k])
      && (forall k :: committed <= k < |text| ==> text[k] != '\n' && text[k] != CTRL_D)
      && (committed < |text| ==> |text| < read + INPUT_BUF)
    }

    constructor ()
      ensures Valid() && text == [] && read == 0 && committed == 0 && fresh(buf)
    {
      buf := new char[INPUT_BUF];
      r, w, e := 0, 0, 0;
      text, read, committed := [], 0, 0;
    }

    /** One character from the keyboard. */
    method Key(c: char)
      requires Valid()
      modifies this, buf
      ensures Valid() && read == old(read) && old(committed) <= committed <= |text|
      ensures text[..old(committed)] == old(text)[..old(committed)]
      // Kill-line erases all that is not committed, backspace the last of it.
      ensures c == CTRL_U ==> committed == old(committed) && text == old(text)[..committed]
      ensures c == CTRL_H || c == DELETE ==> committed == old(committed) && text == if |old(text)| > committed then old(text)[..|old(text)| - 1] else old(text)
      ensures c == CTRL_P || c == NUL ==> text == old(text) && committed == old(committed)
      // Any other character is added if there is room, and ends the line if it must.
      ensures c != CTRL_U && c != CTRL_H && c != DELETE && c != CTRL_P && c != NUL ==>
        && text == (if |old(text)| - read < INPUT_BUF then old(text) + [Typed(c)] else old(text))
        && committed == if |old(text)| - read < INPUT_BUF && (Typed(c) == '\n' || c == CTRL_D || |text| == read + INPUT_BUF) then |text| else old(committed)
    {
      hide Wrap;
      WrapDistance(committed, |text|);
      if c == CTRL_P {
      } else if c == CTRL_U {
        KillLine();
      } else if c == CTRL_H || c == DELETE {
        if e != w {
          WrapOn(|text|, -1);
          e := Wrap(e - 1);
          text := text[..|text| - 1];
        }
      } else if c != NUL {
        Add(c);
      }
    }

    method KillLine()
      requires Valid()
      modifies this
      ensures Valid() && read == old(read) && committed == old(committed) && text == old(text)[..committed]
    {
      hide Wrap;
      WrapDistance(committed, |text|);
      WrapOn(|text|, -1);
      WrapPlace(|text| - 1, INPUT_BUF);
      while e != w && buf[Wrap(e - 1) % INPUT_BUF] != '\n'
        invariant Valid() && read == old(read) && committed == old(committed) && |text| <= |old(text)|
        invariant text == old(text)[..|text|]
        invariant e == w <==> |text| == committed
        invariant Wrap(e - 1) % INPUT_BUF == (|text| - 1) % INPUT_BUF
        decreases |text|
      {
        e := Wrap(e - 1);
        text := text[..|text| - 1];
        WrapOn(|text| + 1, -1);
        WrapDistance(committed, |text|);
        WrapOn(|text|, -1);
        WrapPlace(|text| - 1, INPUT_BUF);
      }
    }

    method Add(c: char)
      requires Valid() && c != NUL
      modifies this, buf
      ensures Valid() && read == old(read)
      ensures text == if |old(text)| - read < INPUT_BUF then old(text) + [Typed(c)] else old(text)
      ensures committed == if |old(text)| - read < INPUT_BUF && (Typed(c) == '\n' || c == CTRL_D || |text| == read + INPUT_BUF) then |text| else old(committed)
    {
      hide Wrap;
      WrapDistance(read, |text|);
      if Wrap(e - r) < INPUT_BUF {
        var x := if c == '\r' then '\n' else c;
        WrapPlace(|text|, INPUT_BUF);
        WrapOn(|text|, 1);
        forall k | read <= k < |text| ensures k % INPUT_BUF != |text| % INPUT_BUF { PlacesDiffer(k, |text|, INPUT_BUF); }
        buf[e % INPUT_BUF] := x;
        e := Wrap(e + 1);
        text := text + [x];
        WrapDistance(|text|, read + INPUT_BUF);
        WrapOn(read, INPUT_BUF);
        if x == '\n' || x == CTRL_D || e == Wrap(r + INPUT_BUF) {
          w := e;
          committed := |text|;
        }
      }
    }

    /** consoleread with n of `target` characters still to come, until it returns or goes to sleep for more.
        Characters are handed out in order up to the end of the line; a ^D ends it too, and is left for
        the next call unless this one has nothing else to return. Where it would sleep, a killed process gets
        -1, and the characters taken so far are gone. */
    method Read(n: nat, target: nat, killed: bool) returns (out: seq<char>, result: LineResult)
      requires Valid() && n <= target
      modifies this
      ensures Valid() && text == old(text) && committed == old(committed)
      ensures |out| <= n && old(read) + |out| <= committed && out == text[old(read)..old(read) + |out|]
      ensures forall k :: 0 <= k < |out| ==> out[k] != CTRL_D && (k < |out| - 1 ==> out[k] != '\n')
      ensures !result.Line? <==> |out| < n && old(read) + |out| == committed && (out == [] || out[|out| - 1] != '\n')
      ensures !result.Line? ==> read == old(read) + |out| && (result.Aborted? <==> killed)
      ensures result.Line? && |out| < n && (out == [] || out[|out| - 1] != '\n') ==>
        && text[old(read) + |out|] == CTRL_D && read == old(read) + |out| + if n - |out| < target then 0 else 1
      ensures result.Line? && (|out| == n || (out != [] && out[|out| - 1] == '\n')) ==> read == old(read) + |out|
    {
      hide Wrap;
      out := [];
      while |out| < n
        invariant Valid() && text == old(text) && committed == old(committed) && |out| <= n
        invariant read == old(read) + |out| && out == text[old(read)..read]
        invariant forall k :: 0 <= k < |out| ==> out[k] != CTRL_D && out[k] != '\n'
        decreases n - |out|
      {
        WrapDistance(read, committed);
        if r == w { return out, if killed then Aborted else Asleep; }
        WrapPlace(read, INPUT_BUF);
        WrapOn(read, 1);
        var c := buf[r % INPUT_BUF];
        r := Wrap(r + 1);
        read := read + 1;
        if c == CTRL_D {
          if n - |out| < target {
            WrapOn(read, -1);
            r := Wrap(r - 1);
            read := read - 1;
          }
          return out, Line;
        }
        out := out + [c];
        if c == '\n' { return out, Line; }
      }
      return out, Line;
    }
  }

  datatype LineResult = Line | Asleep | Aborted

  /** What is stored for a character typed. */
  function Typed(c: char): (x: char) {
    if c == '\r' then '\n' else c
  }
}
