/**
 * The byte-staging side of the disruptor `FileAppender`: a byte buffer
 * of twice the character buffer's size, the encode loop of
 * `processCharBuffer`, and `store`, which hands the staged bytes to the
 * file channel and always clears the buffer.
 *
 * The charset encoder is given by the bytes of each character and by
 * `floor(maxBytesPerChar())`; it encodes characters in order while their
 * bytes fit and reports an overflow at the first one that does not. A
 * character here is a Unicode scalar; the character buffer's position
 * counts UTF-16 code units, two for a supplementary character, and
 * `maxBytesPerChar` bounds the bytes per code unit. The file channel is
 * the sequence of writes handed to it; whether a write fails is not
 * determined by the model, except that a write to a closed channel always
 * fails.
 */
module DisruptorAppender {

  /** A `CharsetEncoder`: the bytes of each character, and `floor(maxBytesPerChar())`. */
  datatype Encoder = Encoder(bytesOf: char -> seq<bv8>, maxBytesPerChar: nat)

  /** The bytes of `cs`, character by character. */
  function Encoded(enc: Encoder, cs: seq<char>): seq<bv8>
  {
    if cs == [] then [] else enc.bytesOf(cs[0]) + Encoded(enc, cs[1..])
  }

  /** Every character of `cs` encodes to at most `cap` bytes: each one fits an empty buffer. */
  predicate EachFits(enc: Encoder, cap: nat, cs: seq<char>)
  {
    forall i :: 0 <= i < |cs| ==> |enc.bytesOf(cs[i])| <= cap
  }

  /** The UTF-16 code units of `c`: a surrogate pair for a supplementary character. */
  function UnitLen(c: char): nat
  {
    if c as int >= 0x1_0000 then 2 else 1
  }

  /** `charBuffer.position()` after `cs` was put: its length in UTF-16 code units. */
  function Units(cs: seq<char>): (r: nat)
    ensures |cs| <= r <= 2 * |cs|
    ensures (forall i :: 0 <= i < |cs| ==> cs[i] as int < 0x1_0000) ==> r == |cs|
  {
    if cs == [] then 0 else UnitLen(cs[0]) + Units(cs[1..])
  }

  /** The charset's `maxBytesPerChar` really bounds the bytes of every code unit. */
  ghost predicate Bounded(enc: Encoder)
  {
    forall c :: |enc.bytesOf(c)| <= enc.maxBytesPerChar * UnitLen(c)
  }

  /** The length of the UTF-8 encoding of `c`. */
  function Utf8Length(c: char): nat
  {
    if c as int < 0x80 then 1 else if c as int < 0x800 then 2 else if c as int < 0x1_0000 then 3 else 4
  }

  /** UTF-8, whose `maxBytesPerChar` is 3, is bounded: four bytes only for a pair of code units. */
  lemma Utf8Bounded(enc: Encoder)
    requires enc.maxBytesPerChar == 3
    requires forall c :: |enc.bytesOf(c)| == Utf8Length(c)
    ensures Bounded(enc)
  {
  }

  /** Java's 32-bit `int` value of the integer `x`: wrapped into [-2^31, 2^31). */
  function Int32(x: int): (r: int)
    ensures -0x8000_0000 <= r < 0x8000_0000
    ensures -0x8000_0000 <= x < 0x8000_0000 ==> r == x
    ensures (x - r) % 0x1_0000_0000 == 0
  {
    var m := x % 0x1_0000_0000;
    if m >= 0x8000_0000 then m - 0x1_0000_0000 else m
  }

  /**
   * The pre-flush test of `processCharBuffer`: the free room is below
   * `maxBytesPerChar * charBuffer.position()`, multiplied in 32-bit `int`.
   */
  predicate PreFlush(enc: Encoder, room: nat, cs: seq<char>)
  {
    room < Int32(enc.maxBytesPerChar * Units(cs))
  }
  /** A supplementary character takes two code units of the buffer's room, so it can force the pre-flush. */
  lemma SupplementaryCountsTwice(enc: Encoder)
    requires enc.maxBytesPerChar == 3
    ensures Units(['\U{1F600}']) == 2
    ensures PreFlush(enc, 4, ['\U{1F600}']) && !PreFlush(enc, 4, ['a'])
  {
  }

  /**
   * With UTF-8 and 0x3000_0000 staged code units, a size the constructor
   * admits, the 32-bit product wraps negative and the pre-flush is skipped
   * however little room is left.
   */
  lemma WrappedWorstCase(enc: Encoder, room: nat, cs: seq<char>)
    requires enc.maxBytesPerChar == 3 && Units(cs) == 0x3000_0000
    ensures room < 0x8000_0000 ==> room < enc.maxBytesPerChar * Units(cs)
    ensures !PreFlush(enc, room, cs)
  {
    assert Int32(0x9000_0000) == -0x7000_0000;
  }


  /**
   * How many leading characters of `cs` one `encode` call writes into
   * `room` free bytes: the encoder stops at the first character whose
   * bytes no longer fit.
   */
  function Fit(enc: Encoder, room: nat, cs: seq<char>): (k: nat)
    ensures k <= |cs|
  {
    if cs == [] then 0
    else if |enc.bytesOf(cs[0])| <= room then 1 + Fit(enc, room - |enc.bytesOf(cs[0])|, cs[1..])
    else 0
  }

  /** Encoding a concatenation is concatenating the encodings. */
  lemma {:induction false} EncodedAppend(enc: Encoder, a: seq<char>, b: seq<char>)
    ensures Encoded(enc, a + b) == Encoded(enc, a) + Encoded(enc, b)
  {
    if a == [] {
      assert a + b == b;
    } else {
      assert (a + b)[0] == a[0] && (a + b)[1..] == a[1..] + b;
      EncodedAppend(enc, a[1..], b);
      assert Encoded(enc, a + b) == enc.bytesOf(a[0]) + Encoded(enc, a[1..] + b);
    }
  }

  /** A split of `cs` splits its encoding. */
  lemma EncodedSplit(enc: Encoder, cs: seq<char>, k: nat)
    requires k <= |cs|
    ensures Encoded(enc, cs[..k]) + Encoded(enc, cs[k..]) == Encoded(enc, cs)
  {
    EncodedAppend(enc, cs[..k], cs[k..]);
    assert cs[..k] + cs[k..] == cs;
  }

  /**
   * The encoder's step is greedy: what it writes fits the room, and the
   * next character would not have fitted.
   */
  lemma {:induction false} FitFits(enc: Encoder, room: nat, cs: seq<char>)
    ensures |Encoded(enc, cs[..Fit(enc, room, cs)])| <= room
    ensures Fit(enc, room, cs) < |cs| ==>
      |Encoded(enc, cs[..Fit(enc, room, cs)])| + |enc.bytesOf(cs[Fit(enc, room, cs)])| > room
  {
    if cs != [] && |enc.bytesOf(cs[0])| <= room {
      var n := |enc.bytesOf(cs[0])|;
      var k := Fit(enc, room, cs);
      FitFits(enc, room - n, cs[1..]);
      assert cs[..k] == [cs[0]] + cs[1..][..k - 1];
      EncodedAppend(enc, [cs[0]], cs[1..][..k - 1]);
      assert Encoded(enc, [cs[0]]) == enc.bytesOf(cs[0]) by {
        assert [cs[0]][1..] == [];
      }
      if k < |cs| {
        assert cs[k] == cs[1..][k - 1];
      }
    } else {
      assert cs[..0] == [];
    }
  }

  /** The characters encode within `room` exactly when the encoder takes all of them. */
  lemma {:induction false} AllFit(enc: Encoder, room: nat, cs: seq<char>)
    ensures Fit(enc, room, cs) == |cs| <==> |Encoded(enc, cs)| <= room
  {
    if cs != [] {
      var n := |enc.bytesOf(cs[0])|;
      if n <= room {
        AllFit(enc, room - n, cs[1..]);
      }
    }
  }

  lemma MulAdd(m: nat, a: nat, b: nat)
    ensures m * (a + b) == m * a + m * b
  {
  }

  /** A bounded encoder writes at most `maxBytesPerChar` bytes per code unit. */
  lemma {:induction false} EncodedLength(enc: Encoder, cs: seq<char>)
    requires Bounded(enc)
    ensures |Encoded(enc, cs)| <= enc.maxBytesPerChar * Units(cs)
  {
    if cs != [] {
      EncodedLength(enc, cs[1..]);
      var m, u := enc.maxBytesPerChar, UnitLen(cs[0]);
      assert |enc.bytesOf(cs[0])| <= m * u;
      MulAdd(m, u, Units(cs[1..]));
    }
  }

  // ---------------------------------------------------------------------
  // The channel
  // ---------------------------------------------------------------------

  /**
   * One `channel.write` of `store`: the bytes handed over, whether the
   * write succeeded, and whether the channel was still open when it was made.
   */
  datatype Write = Write(data: seq<bv8>, ok: bool, open: bool)

  /** The byte chunks handed to the channel, in order. */
  function Data(ws: seq<Write>): (r: seq<seq<bv8>>)
    ensures |r| == |ws|
  {
    if ws == [] then [] else Data(ws[..|ws| - 1]) + [ws[|ws| - 1].data]
  }

  /** The chunks one after the other. */
  function Concat(chunks: seq<seq<bv8>>): seq<bv8>
  {
    if chunks == [] then [] else Concat(chunks[..|chunks| - 1]) + chunks[|chunks| - 1]
  }

  /** The bytes that reached the file: those of the writes that succeeded. */
  function Delivered(ws: seq<Write>): seq<bv8>
  {
    if ws == [] then []
    else Delivered(ws[..|ws| - 1]) + (if ws[|ws| - 1].ok then ws[|ws| - 1].data else [])
  }

  /** When no write failed, the file holds every chunk handed over, in order. */
  lemma {:induction false} AllOkDelivered(ws: seq<Write>)
    requires forall i :: 0 <= i < |ws| ==> ws[i].ok
    ensures Delivered(ws) == Concat(Data(ws))
  {
    if ws != [] {
      var init := ws[..|ws| - 1];
      assert forall i :: 0 <= i < |init| ==> init[i].ok by {
        forall i | 0 <= i < |init| ensures init[i].ok {
          assert init[i] == ws[i];
        }
      }
      AllOkDelivered(init);
      assert Data(ws)[..|ws| - 1] == Data(init);
    }
  }

  /**
   * The writes `ws` go on from `w0`, every write made after `w0` was made
   * on a channel that was `closed` or not, and one made on a closed
   * channel failed.
   */
  predicate WritesAfter(w0: seq<Write>, ws: seq<Write>, closed: bool)
  {
    |w0| <= |ws| && ws[..|w0|] == w0 &&
    forall i :: |w0| <= i < |ws| ==> ws[i].open == !closed && (closed ==> !ws[i].ok)
  }

  /** Writes that go on from `w0` to `w1` and then on to `w2` go on from `w0` to `w2`. */
  lemma WritesAfterTrans(w0: seq<Write>, w1: seq<Write>, w2: seq<Write>, closed: bool)
    requires WritesAfter(w0, w1, closed) && WritesAfter(w1, w2, closed)
    ensures WritesAfter(w0, w2, closed)
  {
    PrefixTrans(w0, w1, w2);
    forall i | |w0| <= i < |w1|
      ensures w2[i].open == !closed && (closed ==> !w2[i].ok)
    {
      assert w2[i] == w2[..|w1|][i];
    }
  }

  // ---------------------------------------------------------------------
  // Reference definition of the byte staging
  // ---------------------------------------------------------------------

  /** The bytes staged in the byte buffer, and the chunks handed to the channel so far. */
  datatype Staging = Staging(pending: seq<bv8>, stored: seq<seq<bv8>>)

  /** `store`: nothing when no byte is staged; otherwise one chunk of all staged bytes, and an empty buffer. */
  function StoreState(st: Staging): Staging
  {
    if st.pending == [] then st else Staging([], st.stored + [st.pending])
  }

  /**
   * The `do/while` loop of `processCharBuffer` on the characters `cs`
   * still to encode: encode what fits, and on an overflow store and go on.
   */
  function EncodeRun(enc: Encoder, cap: nat, st: Staging, cs: seq<char>): Staging
    requires |st.pending| <= cap && EachFits(enc, cap, cs)
    decreases |cs|, |st.pending|
  {
    var k := Fit(enc, cap - |st.pending|, cs);
    FitFits(enc, cap - |st.pending|, cs);
    var t := st.(pending := st.pending + Encoded(enc, cs[..k]));
    if k == |cs| then t
    else
      assert |enc.bytesOf(cs[0])| <= cap;
      EncodeRun(enc, cap, StoreState(t), cs[k..])
  }

  /** `processCharBuffer`: store first when the worst case may not fit, then the encode loop. */
  function ProcessState(enc: Encoder, cap: nat, st: Staging, cs: seq<char>): Staging
    requires |st.pending| <= cap && EachFits(enc, cap, cs)
  {
    var s0 := if PreFlush(enc, cap - |st.pending|, cs) then StoreState(st) else st;
    EncodeRun(enc, cap, s0, cs)
  }

  /** Every chunk handed to the channel holds at least one byte and at most the buffer's capacity. */
  predicate ChunksWithin(cap: nat, chunks: seq<seq<bv8>>)
  {
    forall i :: 0 <= i < |chunks| ==> 0 < |chunks[i]| <= cap
  }

  /** `store` neither loses nor reorders a byte. */
  lemma StoreKeepsBytes(st: Staging)
    ensures Concat(StoreState(st).stored) + StoreState(st).pending == Concat(st.stored) + st.pending
  {
    if st.pending != [] {
      var s := st.stored + [st.pending];
      assert s[..|s| - 1] == st.stored;
    }
  }

  /** `store` appends at most one chunk, a non-empty one that fits the buffer. */
  lemma StoreChunks(cap: nat, st: Staging)
    requires |st.pending| <= cap && ChunksWithin(cap, st.stored)
    ensures ChunksWithin(cap, StoreState(st).stored)
    ensures |StoreState(st).stored| == |st.stored| + (if st.pending == [] then 0 else 1)
    ensures StoreState(st).stored[..|st.stored|] == st.stored
  {
  }

  /** Regrouping a concatenation of four sequences. */
  lemma Regroup<T>(a: seq<T>, b: seq<T>, c: seq<T>, d: seq<T>)
    ensures a + (b + c) + d == a + b + (c + d)
  {
  }

  /** What is left of `cs` after its first `k` characters still fits character by character. */
  lemma EachFitsSuffix(enc: Encoder, cap: nat, cs: seq<char>, k: nat)
    requires k <= |cs| && EachFits(enc, cap, cs)
    ensures EachFits(enc, cap, cs[k..])
  {
    forall i | 0 <= i < |cs[k..]|
      ensures |enc.bytesOf(cs[k..][i])| <= cap
    {
      assert cs[k..][i] == cs[k + i];
    }
  }

  /**
   * One `encode` call of the loop: the staged bytes stay within the
   * buffer, and on an overflow the rest still fits character by character
   * and, when nothing was taken, bytes were staged already.
   */
  lemma FitStep(enc: Encoder, cap: nat, st: Staging, cs: seq<char>, k: nat, t: Staging)
    requires |st.pending| <= cap && EachFits(enc, cap, cs)
    requires k == Fit(enc, cap - |st.pending|, cs)
    requires t == st.(pending := st.pending + Encoded(enc, cs[..k]))
    ensures |t.pending| <= cap && t.stored == st.stored
    ensures k < |cs| ==> EachFits(enc, cap, cs[k..]) && (k == 0 ==> st.pending != [])
  {
    FitFits(enc, cap - |st.pending|, cs);
    if k < |cs| {
      assert |enc.bytesOf(cs[0])| <= cap;
      EachFitsSuffix(enc, cap, cs, k);
    }
  }

  /** The encode loop after one `encode` call: done when it took every character, otherwise store and go on. */
  lemma EncodeRunUnfold(enc: Encoder, cap: nat, st: Staging, cs: seq<char>, k: nat, t: Staging)
    requires |st.pending| <= cap && EachFits(enc, cap, cs)
    requires k == Fit(enc, cap - |st.pending|, cs)
    requires t == st.(pending := st.pending + Encoded(enc, cs[..k]))
    ensures |t.pending| <= cap && t.stored == st.stored
    ensures k == |cs| ==> EncodeRun(enc, cap, st, cs) == t
    ensures k < |cs| ==>
      EachFits(enc, cap, cs[k..]) && (k == 0 ==> st.pending != []) &&
      EncodeRun(enc, cap, st, cs) == EncodeRun(enc, cap, StoreState(t), cs[k..])
  {
    FitStep(enc, cap, st, cs, k, t);
  }

  /**
   * The encode loop neither loses nor reorders a byte: the chunks handed
   * over followed by the bytes left staged are the old ones followed by
   * the encoding of every character.
   */
  lemma {:induction false} EncodeRunKeepsBytes(enc: Encoder, cap: nat, st: Staging, cs: seq<char>)
    requires |st.pending| <= cap && EachFits(enc, cap, cs)
    ensures var r := EncodeRun(enc, cap, st, cs);
      Concat(r.stored) + r.pending == Concat(st.stored) + st.pending + Encoded(enc, cs)
    decreases |cs|, |st.pending|
  {
    var k := Fit(enc, cap - |st.pending|, cs);
    var t := st.(pending := st.pending + Encoded(enc, cs[..k]));
    EncodeRunUnfold(enc, cap, st, cs, k, t);
    EncodedSplit(enc, cs, k);
    var x := Encoded(enc, cs[..k]);
    var y := Encoded(enc, cs[k..]);
    if k < |cs| {
      var u := StoreState(t);
      StoreKeepsBytes(t);
      EncodeRunKeepsBytes(enc, cap, u, cs[k..]);
      Regroup(Concat(st.stored), st.pending, x, y);
    } else {
      assert y == [];
    }
  }

  /** The encode loop only appends chunks, each fitting the buffer, and keeps the staged bytes within it. */
  lemma {:induction false} EncodeRunChunks(enc: Encoder, cap: nat, st: Staging, cs: seq<char>)
    requires |st.pending| <= cap && EachFits(enc, cap, cs) && ChunksWithin(cap, st.stored)
    ensures var r := EncodeRun(enc, cap, st, cs);
      ChunksWithin(cap, r.stored) && |r.pending| <= cap &&
      |st.stored| <= |r.stored| && r.stored[..|st.stored|] == st.stored
    decreases |cs|, |st.pending|
  {
    var k := Fit(enc, cap - |st.pending|, cs);
    var t := st.(pending := st.pending + Encoded(enc, cs[..k]));
    EncodeRunUnfold(enc, cap, st, cs, k, t);
    if k < |cs| {
      var u := StoreState(t);
      StoreChunks(cap, t);
      EncodeRunChunks(enc, cap, u, cs[k..]);
      var r := EncodeRun(enc, cap, u, cs[k..]);
      PrefixTrans(st.stored, u.stored, r.stored);
    }
  }

  /** A prefix of a prefix is a prefix. */
  lemma PrefixTrans<T>(a: seq<T>, b: seq<T>, c: seq<T>)
    requires |a| <= |b| <= |c| && c[..|b|] == b && b[..|a|] == a
    ensures c[..|a|] == a
  {
    assert c[..|b|][..|a|] == c[..|a|];
  }

  /**
   * `processCharBuffer` neither loses nor reorders a byte: afterwards the
   * chunks handed to the channel followed by the staged bytes are the
   * earlier ones followed by the encoding of the character buffer.
   */
  lemma ProcessKeepsBytes(enc: Encoder, cap: nat, st: Staging, cs: seq<char>)
    requires |st.pending| <= cap && EachFits(enc, cap, cs)
    ensures var r := ProcessState(enc, cap, st, cs);
      Concat(r.stored) + r.pending == Concat(st.stored) + st.pending + Encoded(enc, cs)
  {
    var s0 := if PreFlush(enc, cap - |st.pending|, cs) then StoreState(st) else st;
    StoreKeepsBytes(st);
    EncodeRunKeepsBytes(enc, cap, s0, cs);
  }

  /**
   * `processCharBuffer` only appends chunks to those handed over before,
   * each non-empty and fitting the buffer, and leaves at most a buffer's
   * worth of bytes staged.
   */
  lemma ProcessChunks(enc: Encoder, cap: nat, st: Staging, cs: seq<char>)
    requires |st.pending| <= cap && EachFits(enc, cap, cs) && ChunksWithin(cap, st.stored)
    ensures var r := ProcessState(enc, cap, st, cs);
      ChunksWithin(cap, r.stored) && |r.pending| <= cap &&
      |st.stored| <= |r.stored| && r.stored[..|st.stored|] == st.stored
  {
    var s0 := if PreFlush(enc, cap - |st.pending|, cs) then StoreState(st) else st;
    StoreChunks(cap, st);
    EncodeRunChunks(enc, cap, s0, cs);
    PrefixTrans(st.stored, s0.stored, EncodeRun(enc, cap, s0, cs).stored);
  }

  /**
   * The pre-flush: when the worst case of the characters does not fit,
   * the staged bytes, if any, are handed over as one chunk before anything
   * is encoded.
   */
  lemma ProcessStoresFirst(enc: Encoder, cap: nat, st: Staging, cs: seq<char>)
    requires |st.pending| <= cap && EachFits(enc, cap, cs) && ChunksWithin(cap, st.stored)
    requires PreFlush(enc, cap - |st.pending|, cs) && st.pending != []
    ensures var r := ProcessState(enc, cap, st, cs);
      |st.stored| < |r.stored| && r.stored[|st.stored|] == st.pending
  {
    var s0 := StoreState(st);
    StoreChunks(cap, st);
    assert s0.stored[|st.stored|] == st.pending;
    EncodeRunChunks(enc, cap, s0, cs);
    var r := EncodeRun(enc, cap, s0, cs);
    assert r.stored[..|s0.stored|][|st.stored|] == r.stored[|st.stored|];
  }

  /** Characters whose bytes all fit the free room are encoded in one call, with no overflow and no store. */
  lemma EncodeRunAllFit(enc: Encoder, cap: nat, st: Staging, cs: seq<char>)
    requires |st.pending| <= cap && EachFits(enc, cap, cs)
    requires |st.pending| + |Encoded(enc, cs)| <= cap
    ensures EncodeRun(enc, cap, st, cs) == st.(pending := st.pending + Encoded(enc, cs))
  {
    AllFit(enc, cap - |st.pending|, cs);
    assert cs[..|cs|] == cs;
  }

  /**
   * What the pre-flush buys: with an encoder whose bound holds, a message
   * whose worst case fits an empty buffer never overflows in the loop,
   * and after the pre-flush its bytes are staged in one piece.
   */
  lemma ProcessWithoutOverflow(enc: Encoder, cap: nat, st: Staging, cs: seq<char>)
    requires |st.pending| <= cap < 0x8000_0000 && EachFits(enc, cap, cs) && Bounded(enc)
    requires enc.maxBytesPerChar * Units(cs) <= cap
    ensures var s0 := if PreFlush(enc, cap - |st.pending|, cs) then StoreState(st) else st;
      ProcessState(enc, cap, st, cs) == s0.(pending := s0.pending + Encoded(enc, cs))
  {
    var s0 := if PreFlush(enc, cap - |st.pending|, cs) then StoreState(st) else st;
    EncodedLength(enc, cs);
    assert |s0.pending| + |Encoded(enc, cs)| <= cap;
    EncodeRunAllFit(enc, cap, s0, cs);
  }

  // ---------------------------------------------------------------------
  // The appender object
  // ---------------------------------------------------------------------

  class FileAppender {
    /** The size of the character buffer, which lives in the base class. */
    const bufferSize: nat
    const encoder: Encoder
    /** The byte buffer; its position is `position` and its limit, while filling, the capacity. */
    const bytes: array<bv8>
    var position: nat
    /** The characters staged in the base class' character buffer. */
    var charBuffer: seq<char>
    var immediateFlush: bool
    /** Every `channel.write` made, in order. */
    var writes: seq<Write>
    var channelClosed: bool
    /** Failures of `closeFile` reported through `LogLog.error`. */
    var closeFailures: nat

    ghost predicate Valid()
      reads this
    {
      bytes.Length == 2 * bufferSize && position <= bytes.Length
    }

    /** The staged bytes and the chunks handed to the channel. */
    function Staged(): Staging
      reads this, bytes
      requires position <= bytes.Length
    {
      Staging(bytes[..position], Data(writes))
    }

    /**
     * `FileAppender(bufferSize)`: a byte buffer of twice the character
     * buffer's size, since a character of the staged text takes two bytes.
     */
    constructor (bufferSize: nat, encoder: Encoder)
      requires bufferSize < 0x4000_0000
      ensures Valid() && fresh(bytes)
      ensures this.bufferSize == bufferSize && this.encoder == encoder
      ensures bytes.Length == 2 * bufferSize && position == 0
      ensures charBuffer == [] && !immediateFlush
      ensures writes == [] && !channelClosed && closeFailures == 0
    {
      this.bufferSize := bufferSize;
      this.encoder := encoder;
      bytes := new bv8[2 * bufferSize];
      position := 0;
      charBuffer := [];
      immediateFlush := false;
      writes := [];
      channelClosed := false;
      closeFailures := 0;
    }

    /**
     * `store(cause)`: nothing when no byte is staged; otherwise one
     * `channel.write` of the staged bytes, an `IOException` being reported
     * and swallowed, and the buffer cleared either way.
     */
    method Store() returns (stored: bool)
      requires Valid()
      modifies this`position, this`writes
      ensures Valid()
      ensures stored == (old(position) > 0)
      ensures Staged() == StoreState(old(Staged()))
      ensures |writes| == |old(writes)| + (if stored then 1 else 0) && WritesAfter(old(writes), writes, channelClosed)
      ensures stored ==> writes[|writes| - 1].data == old(bytes[..position])
    {
      if position == 0 {
        return false;
      }
      var failed: bool :| channelClosed ==> failed;
      var w := Write(bytes[..position], !failed, !channelClosed);
      assert (writes + [w])[..|writes|] == writes;
      writes := writes + [w];
      position := 0;
      stored := true;
    }

    /** `flushCharBuffer()`: exactly `store`. */
    method FlushCharBuffer()
      requires Valid()
      modifies this`position, this`writes
      ensures Valid()
      ensures Staged() == StoreState(old(Staged()))
      ensures |writes| == |old(writes)| + (if old(position) > 0 then 1 else 0)
      ensures WritesAfter(old(writes), writes, channelClosed)
    {
      var stored := Store();
    }

    /** The encoder writing `bs` at the buffer's position. */
    method PutBytes(bs: seq<bv8>)
      requires Valid() && position + |bs| <= bytes.Length
      modifies this`position, bytes
      ensures Valid()
      ensures bytes[..position] == old(bytes[..position]) + bs
    {
      var j := 0;
      while j < |bs|
        invariant 0 <= j <= |bs| && position + |bs| <= bytes.Length
        invariant bytes[..position + j] == old(bytes[..position]) + bs[..j]
        invariant position == old(position)
      {
        bytes[position + j] := bs[j];
        assert bytes[..position + j + 1] == bytes[..position + j] + [bs[j]];
        assert bs[..j + 1] == bs[..j] + [bs[j]];
        j := j + 1;
      }
      assert bs[..j] == bs;
      position := position + |bs|;
    }

    /**
     * One `encoder.encode(charBuffer, buffer, true)`: the characters of
     * `cs` whose bytes fit, one after the other; `k` of them were taken,
     * and an overflow is `k < |cs|`.
     */
    method EncodeStep(cs: seq<char>) returns (k: nat)
      requires Valid()
      modifies this`position, bytes
      ensures Valid()
      ensures k == Fit(encoder, bytes.Length - old(position), cs)
      ensures Staged() == old(Staged()).(pending := old(Staged()).pending + Encoded(encoder, cs[..k]))
    {
      var room := bytes.Length - position;
      var out: seq<bv8> := [];
      var i := 0;
      while i < |cs| && |encoder.bytesOf(cs[i])| <= room - |out|
        invariant 0 <= i <= |cs| && |out| <= room
        invariant out == Encoded(encoder, cs[..i])
        invariant Fit(encoder, room, cs) == i + Fit(encoder, room - |out|, cs[i..])
      {
        ghost var n := |encoder.bytesOf(cs[i])|;
        assert cs[i..][0] == cs[i] && cs[i..][1..] == cs[i + 1..];
        assert Encoded(encoder, cs[..i + 1]) == out + encoder.bytesOf(cs[i]) by {
          assert cs[..i + 1] == cs[..i] + [cs[i]];
          EncodedAppend(encoder, cs[..i], [cs[i]]);
          assert [cs[i]][1..] == [];
        }
        out := out + encoder.bytesOf(cs[i]);
        i := i + 1;
      }
      PutBytes(out);
      k := i;
    }

    /**
     * `processCharBuffer()`: store first when the worst-case size of the
     * staged characters exceeds the free bytes, encode, store on every
     * overflow until the encoder takes the rest, and clear the character
     * buffer. Every character must fit an empty byte buffer; otherwise the
     * loop would never end.
     */
    method ProcessCharBuffer()
      requires Valid() && EachFits(encoder, bytes.Length, charBuffer)
      modifies this`position, this`writes, this`charBuffer, bytes
      ensures Valid()
      ensures Staged() == ProcessState(encoder, bytes.Length, old(Staged()), old(charBuffer))
      ensures charBuffer == []
      ensures WritesAfter(old(writes), writes, channelClosed)
    {
      var remaining := bytes.Length - position;
      var sizeOfBuffer := Int32(encoder.maxBytesPerChar * Units(charBuffer));
      if remaining < sizeOfBuffer {
        var stored := Store();
      }
      ghost var w1 := writes;
      EncodeLoop(charBuffer);
      WritesAfterTrans(old(writes), w1, writes, channelClosed);
      charBuffer := [];
    }

    /** The `do/while` loop of `processCharBuffer()` on the flipped character buffer `chars`. */
    method EncodeLoop(chars: seq<char>)
      requires Valid() && EachFits(encoder, bytes.Length, chars)
      modifies this`position, this`writes, bytes
      ensures Valid()
      ensures Staged() == EncodeRun(encoder, bytes.Length, old(Staged()), chars)
      ensures WritesAfter(old(writes), writes, channelClosed)
    {
      ghost var w0 := writes;
      ghost var goal := EncodeRun(encoder, bytes.Length, Staged(), chars);
      var cs := chars;
      var overflow := true;
      while overflow
        invariant Valid() && EachFits(encoder, bytes.Length, cs)
        invariant overflow ==> EncodeRun(encoder, bytes.Length, Staged(), cs) == goal
        invariant !overflow ==> Staged() == goal
        invariant WritesAfter(w0, writes, channelClosed)
        decreases |cs| + (if overflow then 1 else 0), position
      {
        ghost var before := Staged();
        var k := EncodeStep(cs);
        EncodeRunUnfold(encoder, bytes.Length, before, cs, k, Staged());
        overflow := k < |cs|;
        cs := cs[k..];
        if overflow {
          ghost var w1 := writes;
          var stored := Store();
          WritesAfterTrans(w0, w1, writes, channelClosed);
        }
      }
    }

    /**
     * `closeFile()`: `force` then `close`, an `IOException` from either
     * being reported; when `force` fails, `close` is not reached.
     */
    method CloseFile()
      requires Valid()
      modifies this`channelClosed, this`closeFailures
      ensures Valid()
      ensures old(channelClosed) ==> channelClosed && closeFailures == old(closeFailures) + 1
      ensures !old(channelClosed) ==>
        (channelClosed || closeFailures == old(closeFailures) + 1) && closeFailures <= old(closeFailures) + 1
    {
      // `force` on a closed channel throws `ClosedChannelException`.
      var forceFails: bool :| channelClosed ==> forceFails;
      if forceFails {
        closeFailures := closeFailures + 1;
        return;
      }
      var closeFails: bool :| true;
      channelClosed := true;
      if closeFails {
        closeFailures := closeFailures + 1;
      }
    }

    /** `onShutdown()`: store whatever is staged, then close the file. */
    method OnShutdown()
      requires Valid()
      modifies this`position, this`writes, this`channelClosed, this`closeFailures
      ensures Valid()
      ensures Staged() == StoreState(old(Staged())) && position == 0
      ensures |writes| == |old(writes)| + (if old(position) > 0 then 1 else 0)
      ensures WritesAfter(old(writes), writes, old(channelClosed))
      ensures old(position) > 0 ==> writes[|writes| - 1].data == old(bytes[..position])
      ensures channelClosed || closeFailures == old(closeFailures) + 1
      ensures old(channelClosed) ==> closeFailures == old(closeFailures) + 1
    {
      var stored := Store();
      CloseFile();
    }
  }
}
