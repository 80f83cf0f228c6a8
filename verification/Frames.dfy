/**
 The frames that servers exchange over MTCL: a type byte, two big-endian 64-bit sizes, a request and
 the file bytes that go with it; and the hand-off of these bytes from the listener, which keeps
 the last frame with a file, to the handler of the reply that the frame carries.
 */
module Frames {
  import opened Bytes

  // ---------------------------------------------------------------------------
  // Big-endian integers
  // ---------------------------------------------------------------------------

  function Power(n: nat): (r: nat)
    ensures r > 0
  {
    if n == 0 then 1 else 256 * Power(n - 1)
  }

  /** The last `n` base-256 digits of a value, most significant first. */
  function Digits(value: nat, n: nat): (r: Data)
    ensures |r| == n
  {
    if n == 0 then [] else Digits(value / 256, n - 1) + [value % 256]
  }

  function Value(d: Data): nat {
    if d == [] then 0 else 256 * Value(d[..|d| - 1]) + d[|d| - 1]
  }

  lemma {:induction false} ValueBound(d: Data)
    ensures Value(d) < Power(|d|)
  {
    if d != [] { ValueBound(d[..|d| - 1]); }
  }

  lemma {:induction false} ValueOfDigits(value: nat, n: nat)
    requires value < Power(n)
    ensures Value(Digits(value, n)) == value
  {
    if n > 0 {
      var d := Digits(value, n);
      assert value / 256 < Power(n - 1);
      ValueOfDigits(value / 256, n - 1);
      assert d[..n - 1] == Digits(value / 256, n - 1);
    }
  }

  lemma {:induction false} DigitsOfValue(d: Data)
    ensures Digits(Value(d), |d|) == d
  {
    if d != [] {
      var rest, last := d[..|d| - 1], d[|d| - 1];
      DigitsOfValue(rest);
      assert Value(d) / 256 == Value(rest) && Value(d) % 256 == last;
      assert d == rest + [last];
    }
  }

  lemma PowerOf8()
    ensures Power(8) == UINT64
  {
    assert Power(2) == 0x1_0000;
    assert Power(4) == 0x1_0000_0000;
    assert Power(6) == 0x1_0000_0000_0000;
  }

  /** The `m` digits of a value are followed by the digits that the value had below them. */
  lemma {:induction false} DigitsSplit(value: nat, n: nat, k: nat)
    requires k <= n
    ensures Digits(value, n)[n - k..] == Digits(value, k)
    ensures Digits(value, n)[..n - k] == Digits(Shifted(value, k), n - k)
  {
    if k > 0 {
      DigitsSplit(value / 256, n - 1, k - 1);
      var all := Digits(value, n);
      assert all == Digits(value / 256, n - 1) + [value % 256];
    }
  }

  /** The value without its last `k` digits. */
  function Shifted(value: nat, k: nat): nat {
    if k == 0 then value else Shifted(value / 256, k - 1)
  }

  lemma {:induction false} ShiftedThen(value: nat, k: nat)
    ensures Shifted(value, k + 1) == Shifted(value, k) / 256
  {
    if k > 0 { ShiftedThen(value / 256, k - 1); }
  }

  /** write_u64 */
  method WriteU64(a: array<Byte>, at: nat, value: nat)
    requires at + 8 <= a.Length && value < UINT64
    modifies a
    ensures a[..] == old(a[..at]) + Digits(value, 8) + old(a[at + 8..])
  {
    hide Digits;
    var i, v := 8, value;
    while i > 0
      invariant 0 <= i <= 8 && v == Shifted(value, 8 - i)
      invariant a[..at + i] == old(a[..at + i])
      invariant a[at + i..at + 8] == Digits(value, 8)[i..]
      invariant a[at + 8..] == old(a[at + 8..])
    {
      i := i - 1;
      ghost var written := a[at + i + 1..at + 8];
      a[at + i] := v % 256;
      DigitAt(value, i);
      ghost var k := 7 - i;
      ShiftedThen(value, k);
      assert v == Shifted(value, k) && 8 - i == k + 1;
      v := v / 256;
      assert a[at + i..at + 8] == [a[at + i]] + written;
    }
    assert a[..] == a[..at] + a[at..at + 8] + a[at + 8..];
  }

  lemma DigitAt(value: nat, i: nat)
    requires i < 8
    ensures Digits(value, 8)[i] == Shifted(value, 7 - i) % 256
  {
    DigitsSplit(value, 8, 7 - i);
    var head := Digits(Shifted(value, 7 - i), i + 1);
    assert Digits(value, 8)[i] == head[i];
  }

  /** read_u64: the shift drops what does not fit in 64 bits, which never happens. */
  method ReadU64(source: Data, at: nat) returns (value: nat)
    requires at + 8 <= |source|
    ensures value == Value(source[at..at + 8]) && value < UINT64
  {
    value := 0;
    var i := 0;
    while i < 8
      invariant 0 <= i <= 8 && value == Value(source[at..at + i])
    {
      NextDigit(source, at, i);
      value := (value * 256) % UINT64 + source[at + i];
      i := i + 1;
    }
    ValueBound(source[at..at + 8]);
    PowerOf8();
  }

  lemma NextDigit(source: Data, at: nat, i: nat)
    requires at + 8 <= |source| && i < 8
    ensures var v := Value(source[at..at + i]);
            (v * 256) % UINT64 == v * 256 && Value(source[at..at + i + 1]) == v * 256 + source[at + i]
  {
    var d := source[at..at + i];
    ValueBound(d);
    PowerGrows(i, 7);
    PowerOf8();
    assert Power(8) == 256 * Power(7);
    var next := source[at..at + i + 1];
    assert next[..|next| - 1] == d;
  }

  lemma {:induction false} PowerGrows(i: nat, n: nat)
    requires i <= n
    ensures Power(i) <= Power(n)
  {
    if i < n { PowerGrows(i, n - 1); }
  }

  // ---------------------------------------------------------------------------
  // The codec
  // ---------------------------------------------------------------------------

  const HEADER_SIZE: nat := 17
  const MAX_REQUEST_SIZE: nat := 4096 + 81920
  const MAX_FILE_SIZE: nat := 4 * 1024 * 1024 * 1024
  const MAX_FRAME_SIZE: nat := HEADER_SIZE + MAX_REQUEST_SIZE + MAX_FILE_SIZE
  const REQUEST: Byte := 1
  const REQUEST_WITH_FILE: Byte := 2

  /** A frame: the type says whether there is a file. */
  function Encode(message: Data, file: Data): Data {
    [if file == [] then REQUEST else REQUEST_WITH_FILE] + Digits(|message|, 8) + Digits(|file|, 8) + message + file
  }

  /** What send_request and send_file let through. */
  predicate Sendable(message: Data, file: Data) {
    0 < |message| <= MAX_REQUEST_SIZE && |file| <= MAX_FILE_SIZE
  }

  datatype Reason = FrameSize | MessageType | RequestSize | FileSize | TypeMismatch | SizeMismatch

  datatype Decoded = Accepted(request: Data, file: Data) | Rejected(why: Reason)

  /** What read_next_request makes of a frame. The two sizes are added as 64-bit integers. */
  function Decode(frame: Data): Decoded {
    if |frame| < HEADER_SIZE || |frame| > MAX_FRAME_SIZE then Rejected(FrameSize)
    else
      var requestSize := Value(frame[1..9]);
      var fileSize := Value(frame[9..17]);
      if frame[0] != REQUEST && frame[0] != REQUEST_WITH_FILE then Rejected(MessageType)
      else if requestSize == 0 || requestSize > MAX_REQUEST_SIZE then Rejected(RequestSize)
      else if fileSize > MAX_FILE_SIZE then Rejected(FileSize)
      else if (frame[0] == REQUEST_WITH_FILE) != (fileSize != 0) then Rejected(TypeMismatch)
      else if (requestSize + fileSize) % UINT64 != |frame| - HEADER_SIZE then Rejected(SizeMismatch)
      else Accepted(frame[17..17 + requestSize], frame[17 + requestSize..])
  }

  /** send_frame */
  method SendFrame(message: Data, file: Data) returns (bytes: Data)
    requires |message| < UINT64 && |file| < UINT64
    ensures bytes == Encode(message, file)
  {
    hide Digits;
    var frame := new Byte[17 + |message| + |file|](_ => 0);
    frame[0] := if file == [] then REQUEST else REQUEST_WITH_FILE;
    ghost var a := frame[..];
    WriteU64(frame, 1, |message|);
    ghost var b := frame[..];
    WriteU64(frame, 9, |file|);
    ghost var c := frame[..];
    CopyTo(frame, 17, message);
    ghost var d := frame[..];
    CopyTo(frame, 17 + |message|, file);
    bytes := frame[..];
    Placed(a, b, 1, Digits(|message|, 8));
    Placed(b, c, 9, Digits(|file|, 8));
    Placed(c, d, 17, message);
    Placed(d, bytes, 17 + |message|, file);
    assert b[..9] == b[..1] + b[1..9] && c[..17] == c[..9] + c[9..17];
    assert a[..1] == [a[0]];
  }

  lemma Placed(before: Data, after: Data, at: nat, d: Data)
    requires at + |d| <= |before| && after == before[..at] + d + before[at + |d|..]
    ensures |after| == |before| && after[..at] == before[..at] && after[at..at + |d|] == d
    ensures after[..at + |d|] == before[..at] + d
  {
  }

  /** memcpy into a buffer */
  method CopyTo(a: array<Byte>, at: nat, d: Data)
    requires at + |d| <= a.Length
    modifies a
    ensures a[..] == old(a[..at]) + d + old(a[at + |d|..])
  {
    forall i | 0 <= i < |d| {
      a[at + i] := d[i];
    }
  }

  datatype Sent = Frame(bytes: Data) | InvalidArgument

  /** send_file, of which send_request is the case without a file; `null` pointers are not modelled. */
  method SendFile(message: Data, file: Data) returns (r: Sent)
    ensures r == if Sendable(message, file) then Frame(Encode(message, file)) else InvalidArgument
  {
    if |message| == 0 || |message| > MAX_REQUEST_SIZE || |file| > MAX_FILE_SIZE { return InvalidArgument; }
    var bytes := SendFrame(message, file);
    return Frame(bytes);
  }

  /** The parsing of a frame in read_next_request. */
  method ReadFrame(frame: Data) returns (r: Decoded)
    ensures r == Decode(frame)
  {
    if |frame| < HEADER_SIZE || |frame| > MAX_FRAME_SIZE { return Rejected(FrameSize); }
    var requestSize := ReadU64(frame, 1);
    var fileSize := ReadU64(frame, 9);
    if frame[0] != REQUEST && frame[0] != REQUEST_WITH_FILE { return Rejected(MessageType); }
    if requestSize == 0 || requestSize > MAX_REQUEST_SIZE { return Rejected(RequestSize); }
    if fileSize > MAX_FILE_SIZE { return Rejected(FileSize); }
    var expectsFile := frame[0] == REQUEST_WITH_FILE;
    var hasFile := fileSize != 0;
    if expectsFile != hasFile { return Rejected(TypeMismatch); }
    if (requestSize + fileSize) % UINT64 != |frame| - HEADER_SIZE { return Rejected(SizeMismatch); }
    return Accepted(frame[17..17 + requestSize], frame[17 + requestSize..]);
  }

  lemma EncodeParts(message: Data, file: Data)
    ensures var f := Encode(message, file);
            && |f| == 17 + |message| + |file| && f[0] == (if file == [] then REQUEST else REQUEST_WITH_FILE)
            && f[1..9] == Digits(|message|, 8) && f[9..17] == Digits(|file|, 8)
            && f[17..17 + |message|] == message && f[17 + |message|..] == file
  {
  }

  lemma SizeOfDigits(n: nat)
    requires n < UINT64
    ensures Value(Digits(n, 8)) == n
  {
    PowerOf8();
    ValueOfDigits(n, 8);
  }

  /** What is sent is what is received. */
  lemma DecodeOfEncode(message: Data, file: Data)
    requires Sendable(message, file)
    ensures Decode(Encode(message, file)) == Accepted(message, file)
  {
    hide Encode, Digits, Value;
    EncodeParts(message, file);
    SizeOfDigits(|message|);
    SizeOfDigits(|file|);
  }

  /** Every frame accepted is the one frame of its request and file, and could have been sent. */
  lemma EncodeOfDecode(frame: Data)
    requires Decode(frame).Accepted?
    ensures var r := Decode(frame); Sendable(r.request, r.file) && Encode(r.request, r.file) == frame
  {
    hide Digits, Value;
    var r := Decode(frame);
    var requestSize, fileSize := Value(frame[1..9]), Value(frame[9..17]);
    assert (requestSize + fileSize) % UINT64 == requestSize + fileSize;
    assert |r.request| == requestSize && |r.file| == fileSize;
    DigitsOfValue(frame[1..9]);
    DigitsOfValue(frame[9..17]);
    assert frame == frame[..1] + frame[1..9] + frame[9..17] + frame[17..17 + requestSize] + frame[17 + requestSize..];
  }

  /** A frame is accepted exactly if it was built from something that may be sent. */
  lemma AcceptedIff(frame: Data)
    ensures Decode(frame).Accepted? <==> exists m, f :: Sendable(m, f) && Encode(m, f) == frame
  {
    if Decode(frame).Accepted? {
      EncodeOfDecode(frame);
    }
    forall m, f | Sendable(m, f) && Encode(m, f) == frame ensures Decode(frame).Accepted? {
      DecodeOfEncode(m, f);
    }
  }

  /** Eight bytes, most significant first. */
  lemma ValueOf8(d: Data)
    requires |d| == 8
    ensures Value(d) == BigEndian(d)
  {
    ValueOf4(d[..4]);
    ValueJoin(d[..4], d[4..]);
    ValueOf4(d[4..]);
    assert d[..4] + d[4..] == d;
    assert Power(4) == 0x1_0000_0000 by { assert Power(2) == 0x1_0000; }
  }

  lemma ValueOf4(d: Data)
    requires |d| == 4
    ensures Value(d) == Base256(d[0] as int, d[1] as int, d[2] as int, d[3] as int)
  {
    assert d[..3][..2] == d[..2] && d[..2][..1] == d[..1] && d[..1][..0] == [];
    assert Value(d[..1]) == d[0];
    assert Value(d[..2]) == 256 * Value(d[..1]) + d[1];
    assert Value(d[..3]) == 256 * Value(d[..2]) + d[2];
  }

  lemma {:induction false} ValueJoin(a: Data, b: Data)
    ensures Value(a + b) == Value(a) * Power(|b|) + Value(b)
    decreases |b|
  {
    if b == [] {
      assert a + b == a;
    } else {
      var n := |b| - 1;
      ValueJoin(a, b[..n]);
      assert (a + b)[..|a + b| - 1] == a + b[..n];
      assert 256 * (Value(a) * Power(n)) == Value(a) * (256 * Power(n));
    }
  }

  /**
   Where a frame has what: its type, the size of the request and that of the file, most significant byte
   first whatever the machine, then the request and the file.
   */
  lemma FrameLayout(message: Data, file: Data)
    requires |message| < UINT64 && |file| < UINT64
    ensures var f := Encode(message, file);
            && |f| == 17 + |message| + |file| && f[0] == (if file == [] then 1 else 2)
            && BigEndian(f[1..9]) == |message| && BigEndian(f[9..17]) == |file|
            && f[17..17 + |message|] == message && f[17 + |message|..] == file
  {
    hide Encode, Digits, Value;
    EncodeParts(message, file);
    SizeOfDigits(|message|);
    SizeOfDigits(|file|);
    ValueOf8(Encode(message, file)[1..9]);
    ValueOf8(Encode(message, file)[9..17]);
  }

  /** Four digits in base 256. */
  function Base256(a: nat, b: nat, c: nat, d: nat): nat {
    a * 0x100_0000 + b * 0x1_0000 + c * 0x100 + d
  }

  function BigEndian(d: Data): nat
    requires |d| == 8
  {
    Base256(d[0] as int, d[1] as int, d[2] as int, d[3] as int) * 0x1_0000_0000
    + Base256(d[4] as int, d[5] as int, d[6] as int, d[7] as int)
  }
}
