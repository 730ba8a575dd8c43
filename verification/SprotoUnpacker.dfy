/** The loop of sproto_unpack and the Lua entry point of packing (lualib/sproto/sproto.c,
    lualib/sproto/lsproto.c), proved against SprotoPack.dfy.
 */
module SprotoUnpacker {
  import opened Basics
  import opened SprotoPack
  import opened SprotoPacker
  import opened SprotoPackLimits

  /** `bytes` followed by what the rest of a segment expands to. */
  ghost function Joined(bytes: seq<Byte>, used: nat, rest: Option<Piece>): Option<Piece> {
    match rest
    case None => None
    case Some(p) => Some(Piece(bytes + p.bytes, used + p.used))
  }

  /** What is still to come of a segment once the input has been overrun by one byte. */
  ghost function Overrun(header: nat, i: nat): Option<Piece>
    requires i <= SEG
  {
    if AllZero(header, i) then Some(Piece(Zeros(SEG - i), 0)) else None
  }

  ghost function Coming(header: nat, i: nat, src: seq<Byte>, used: nat, stray: Byte): Option<Piece>
    requires i <= SEG && used <= |src| + 1
  {
    if used <= |src| then Expand(header, i, src[used..], stray) else Overrun(header, i)
  }

  lemma ExpandUnfold(header: nat, i: nat, src: seq<Byte>, used: nat, stray: Byte)
    requires i < SEG && used <= |src| + 1
    ensures header % 2 == 0 ==>
      Coming(header, i, src, used, stray) == Joined([0], 0, Coming(header / 2, i + 1, src, used, stray))
    ensures header % 2 == 1 && used == |src| + 1 ==> Coming(header, i, src, used, stray) == None
    ensures header % 2 == 1 && used <= |src| ==>
      Coming(header, i, src, used, stray) ==
      Joined([if used < |src| then src[used] else stray], 1, Coming(header / 2, i + 1, src, used + 1, stray))
  {
    if used < |src| { assert src[used..][1..] == src[used + 1..]; }
    if used == |src| + 1 && AllZero(header, i) { assert Zeros(SEG - i) == [0] + Zeros(SEG - i - 1); }
  }

  lemma JoinTwice(a: seq<Byte>, m: nat, b: seq<Byte>, n: nat, rest: Option<Piece>)
    ensures Joined(a, m, Joined(b, n, rest)) == Joined(a + b, m + n, rest)
  {
    if rest.Some? { Assoc(a, b, rest.value.bytes); }
  }

  /** The write position of the output: what has been produced so far and the room left.  Once
      the output does not fit any more, nothing is written. */
  ghost predicate Written(buffer: array<Byte>, out: seq<Byte>, room: int)
    reads buffer
  {
    if |out| <= buffer.Length then room == buffer.Length - |out| && buffer[..|out|] == out else room <= 0
  }

  method PutByte(b: Byte, buffer: array<Byte>, room: int, ghost out: seq<Byte>) returns (room': int)
    requires Written(buffer, out, room)
    modifies buffer
    ensures Written(buffer, out + [b], room')
  {
    room' := room;
    if room > 0 {
      buffer[buffer.Length - room] := b;
      room' := room - 1;
    }
  }

  /** One segment: `used` bytes of `src` are consumed, one more than there are if the input
      breaks off at the last byte. */
  method UnpackSegment(header: Byte, src: seq<Byte>, stray: Byte, buffer: array<Byte>, room: int, ghost out: seq<Byte>)
    returns (used: int, room': int)
    requires Written(buffer, out, room)
    modifies buffer
    ensures match Expand(header as nat, 0, src, stray)
            case None => used < 0
            case Some(p) => used == p.used && Written(buffer, out + p.bytes, room')
  {
    hide Expand, AllZero;
    var h: nat, i: nat := header as nat, 0;
    ghost var bytes: seq<Byte> := [];
    used, room' := 0, room;
    assert src[0..] == src;
    StartJoined(Expand(header as nat, 0, src, stray));
    NoRest(out);
    while i < SEG
      invariant 0 <= i <= SEG && 0 <= used <= |src| + 1
      invariant Expand(header as nat, 0, src, stray) == Joined(bytes, used, Coming(h, i, src, used, stray))
      invariant Written(buffer, out + bytes, room')
    {
      ExpandUnfold(h, i, src, used, stray);
      var b: Byte := 0;
      ghost var was := used;
      if h % 2 == 1 {
        if |src| - used < 0 {
          return -1, room';
        }
        b := if used < |src| then src[used] else stray;
        used := used + 1;
      }
      room' := PutByte(b, buffer, room', out + bytes);
      Assoc(out, bytes, [b]);
      JoinTwice(bytes, was, [b], used - was, Coming(h / 2, i + 1, src, used, stray));
      bytes := bytes + [b];
      h, i := h / 2, i + 1;
    }
    EndJoined(h, src, used, stray);
    NoRest(bytes);
  }

  lemma StartJoined(rest: Option<Piece>)
    ensures Joined([], 0, rest) == rest
  {
    if rest.Some? { NoRest(rest.value.bytes); }
  }

  lemma EndJoined(h: nat, src: seq<Byte>, used: nat, stray: Byte)
    requires used <= |src| + 1
    ensures Coming(h, SEG, src, used, stray) == Some(Piece([], 0))
  {
    assert Zeros(0) == [];
  }

  ghost function Appended(out: seq<Byte>, rest: Option<seq<Byte>>): Option<seq<Byte>> {
    match rest
    case None => None
    case Some(r) => Some(out + r)
  }

  /** The segments of a run, copied when they fit. */
  method PutRun(bytes: seq<Byte>, buffer: array<Byte>, room: int, ghost out: seq<Byte>) returns (room': int)
    requires Written(buffer, out, room) && bytes != []
    modifies buffer
    ensures Written(buffer, out + bytes, room')
  {
    var n := |bytes|;
    if room >= n {
      ghost var at := |out|;
      forall k | 0 <= k < n {
        buffer[buffer.Length - room + k] := bytes[k];
      }
      assert buffer[..at] == out;
      assert buffer[at..at + n] == bytes;
      assert buffer[..at + n] == buffer[..at] + buffer[at..at + n];
    }
    room' := room - n;
  }

  /** sproto_unpack: writes as much of the output as fits; the full size, or -1. */
  method UnpackInto(src: seq<Byte>, stray: Byte, buffer: array<Byte>) returns (size: int)
    modifies buffer
    ensures match Unpack(src, stray)
            case None => size == -1
            case Some(r) => size == |r| && (size <= buffer.Length ==> buffer[..size] == r)
  {
    hide Expand, Unpack, Written;
    var pos: int, room: int := 0, buffer.Length;
    ghost var out: seq<Byte> := [];
    size := 0;
    assert src[0..] == src;
    StartAppended(Unpack(src, stray));
    NothingWritten(buffer);
    while pos < |src|
      invariant 0 <= pos <= |src| + 1 && size == |out|
      invariant Written(buffer, out, room)
      invariant Unpack(src, stray) == Appended(out, Unpack(if pos < |src| then src[pos..] else [], stray))
      decreases |src| - pos
    {
      var header := src[pos];
      if header == 0xff { UnpackRunStep(src, pos, stray); } else { UnpackSmallStep(src, pos, stray); }
      pos := pos + 1;
      if header == 0xff {
        if |src| == pos { return -1; }
        var n := (src[pos] as int + 1) * SEG;
        if |src| - pos < n + 1 { return -1; }
        pos := pos + 1;
        room := PutRun(src[pos..pos + n], buffer, room, out);
        AppendTwice(out, src[pos..pos + n], Unpack(if pos + n < |src| then src[pos + n..] else [], stray));
        out := out + src[pos..pos + n];
        pos, size := pos + n, size + n;
      } else {
        var used, room' := UnpackSegment(header, src[pos..], stray, buffer, room, out);
        if used < 0 { return -1; }
        ghost var p := Expand(header as nat, 0, src[pos..], stray).value;
        room := room';
        AppendTwice(out, p.bytes, Unpack(if pos + used < |src| then src[pos + used..] else [], stray));
        out := out + p.bytes;
        pos, size := pos + used, size + SEG;
      }
    }
    UnpackEmpty(stray);
    NoRest(out);
    AllWritten(buffer, out, room);
  }

  lemma NothingWritten(buffer: array<Byte>)
    ensures Written(buffer, [], buffer.Length)
  {
  }

  lemma AllWritten(buffer: array<Byte>, out: seq<Byte>, room: int)
    requires Written(buffer, out, room)
    ensures |out| <= buffer.Length ==> buffer[..|out|] == out
  {
  }

  lemma UnpackEmpty(stray: Byte)
    ensures Unpack([], stray) == Some([])
  {
  }

  lemma StartAppended(rest: Option<seq<Byte>>)
    ensures Appended([], rest) == rest
  {
    if rest.Some? { NoRest(rest.value); }
  }

  lemma AppendTwice(a: seq<Byte>, b: seq<Byte>, rest: Option<seq<Byte>>)
    ensures Appended(a, Appended(b, rest)) == Appended(a + b, rest)
  {
    if rest.Some? { Assoc(a, b, rest.value); }
  }

  lemma UnpackRunFirst(s: seq<Byte>, stray: Byte)
    requires s != [] && s[0] == 0xff
    ensures Unpack(s, stray) ==
      if |s| == 1 || |s| - 2 < (s[1] as nat + 1) * SEG then None
      else Appended(s[2..2 + (s[1] as nat + 1) * SEG], Unpack(s[2 + (s[1] as nat + 1) * SEG..], stray))
  {
  }

  lemma RunSlices(src: seq<Byte>, pos: nat, n: nat)
    requires pos + 2 + n <= |src|
    ensures src[pos..][2..2 + n] == src[pos + 2..pos + 2 + n]
    ensures src[pos..][2 + n..] == if pos + 2 + n < |src| then src[pos + 2 + n..] else []
  {
  }

  lemma UnpackRunStep(src: seq<Byte>, pos: nat, stray: Byte)
    requires pos < |src| && src[pos] == 0xff
    ensures Unpack(src[pos..], stray) ==
      if pos + 1 == |src| || |src| - pos - 2 < (src[pos + 1] as nat + 1) * SEG then None
      else
        var n := (src[pos + 1] as nat + 1) * SEG;
        Appended(src[pos + 2..pos + 2 + n], Unpack(if pos + 2 + n < |src| then src[pos + 2 + n..] else [], stray))
  {
    hide Unpack, Appended;
    UnpackRunFirst(src[pos..], stray);
    if pos + 1 < |src| && |src| - pos - 2 >= (src[pos + 1] as nat + 1) * SEG {
      RunSlices(src, pos, (src[pos + 1] as nat + 1) * SEG);
    }
  }

  lemma UnpackSmallStep(src: seq<Byte>, pos: nat, stray: Byte)
    requires pos < |src| && src[pos] != 0xff
    ensures match Expand(src[pos] as nat, 0, src[pos + 1..], stray)
      case None => Unpack(src[pos..], stray) == None
      case Some(p) =>
        p.used <= |src| - pos &&
        Unpack(src[pos..], stray) ==
          Appended(p.bytes, Unpack(if pos + 1 + p.used < |src| then src[pos + 1 + p.used..] else [], stray))
  {
    hide Expand;
    var s := src[pos..];
    assert s[1..] == src[pos + 1..];
    match Expand(s[0] as nat, 0, s[1..], stray)
    case None =>
    case Some(p) =>
      if 1 + p.used < |s| {
        assert s[1 + p.used..] == src[pos + 1 + p.used..];
      } else {
        UnpackEmpty(stray);
        NoRest(p.bytes);
      }
  }

  // ------------------------------------------------------------- entry points

  /** lpack: a buffer of the length of the input and two bytes for each 2048 bytes of it; an
      error exactly for the inputs that are too large for that. */
  method LPack(s: seq<Byte>, beyond: seq<Byte>) returns (r: Option<seq<Byte>>)
    requires |beyond| >= SEG
    ensures r == if TooLarge(s) then None else Some(PackBytes(s, beyond))
    ensures |s| % SEG == 0 ==> r.Some? && Unpack(r.value, 0) == Some(s)
  {
    hide PackBytes, Unpack, Pack, Split, EndsFull, TooLarge;
    var maxsz := (|s| + 2047) / 2048 * 2 + |s|;
    var output := new Byte[maxsz];
    var bytes := PackInto(s, beyond, output);
    TooLargeIff(s, beyond);
    if |s| % SEG == 0 {
      WholeFits(s);
      RoundTrip(s, beyond, 0);
    }
    if bytes > maxsz { return None; }
    r := Some(output[..bytes]);
  }
}
