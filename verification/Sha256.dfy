/** The browser's streaming SHA-256. The first half is the one-shot function of FIPS 180-4; the class
    is the incremental state that must compute it for every way of cutting a message into chunks.
    Adding 32-bit values as JavaScript numbers and reducing with `>>> 0` is addition of bit-vectors:
    no sum in the original comes near 2^53. */
module Sha256 {
  import opened Wrappers

  type Word = bv32
  type Octet = bv8

  // The constants of section 4.2.2, eight to a row.
  const ROW_0: seq<Word> := [0x428a2f98, 0x71374491, 0xb5c0fbcf, 0xe9b5dba5, 0x3956c25b, 0x59f111f1, 0x923f82a4, 0xab1c5ed5]
  const ROW_1: seq<Word> := [0xd807aa98, 0x12835b01, 0x243185be, 0x550c7dc3, 0x72be5d74, 0x80deb1fe, 0x9bdc06a7, 0xc19bf174]
  const ROW_2: seq<Word> := [0xe49b69c1, 0xefbe4786, 0x0fc19dc6, 0x240ca1cc, 0x2de92c6f, 0x4a7484aa, 0x5cb0a9dc, 0x76f988da]
  const ROW_3: seq<Word> := [0x983e5152, 0xa831c66d, 0xb00327c8, 0xbf597fc7, 0xc6e00bf3, 0xd5a79147, 0x06ca6351, 0x14292967]
  const ROW_4: seq<Word> := [0x27b70a85, 0x2e1b2138, 0x4d2c6dfc, 0x53380d13, 0x650a7354, 0x766a0abb, 0x81c2c92e, 0x92722c85]
  const ROW_5: seq<Word> := [0xa2bfe8a1, 0xa81a664b, 0xc24b8b70, 0xc76c51a3, 0xd192e819, 0xd6990624, 0xf40e3585, 0x106aa070]
  const ROW_6: seq<Word> := [0x19a4c116, 0x1e376c08, 0x2748774c, 0x34b0bcb5, 0x391c0cb3, 0x4ed8aa4a, 0x5b9cca4f, 0x682e6ff3]
  const ROW_7: seq<Word> := [0x748f82ee, 0x78a5636f, 0x84c87814, 0x8cc70208, 0x90befffa, 0xa4506ceb, 0xbef9a3f7, 0xc67178f2]

  const CONSTANTS: seq<Word> := ROW_0 + ROW_1 + ROW_2 + ROW_3 + ROW_4 + ROW_5 + ROW_6 + ROW_7

  lemma ConstantCount()
    ensures |CONSTANTS| == 64
  {
  }

  /** The eight working variables, and the hash value between blocks. */
  datatype Registers = Registers(a: Word, b: Word, c: Word, d: Word, e: Word, f: Word, g: Word, h: Word)

  const INITIAL: Registers := Registers(
    0x6a09e667, 0xbb67ae85, 0x3c6ef372, 0xa54ff53a, 0x510e527f, 0x9b05688c, 0x1f83d9ab, 0x5be0cd19)

  // ----- FIPS 180-4 -----

  /** Section 3.2, operation 4: rotation as two shifts, which is also `rotateRight` of the original. */
  function RotateRight(value: Word, shift: Word): Word
    requires 0 < shift < 32
  {
    (value >> shift) | (value << (32 - shift))
  }

  /** Section 2.2.1: addition modulo 2^32, in the original a sum reduced with `>>> 0`. */
  function Add(x: Word, y: Word): Word {
    x + y
  }

  function Sum4(x: Word, y: Word, z: Word, u: Word): Word {
    x + y + z + u
  }

  // Section 4.1.2.
  function BigSigma0(x: Word): Word { RotateRight(x, 2) ^ RotateRight(x, 13) ^ RotateRight(x, 22) }
  function BigSigma1(x: Word): Word { RotateRight(x, 6) ^ RotateRight(x, 11) ^ RotateRight(x, 25) }
  function SmallSigma0(x: Word): Word { RotateRight(x, 7) ^ RotateRight(x, 18) ^ (x >> 3) }
  function SmallSigma1(x: Word): Word { RotateRight(x, 17) ^ RotateRight(x, 19) ^ (x >> 10) }
  function Choice(x: Word, y: Word, z: Word): Word { (x & y) ^ (!x & z) }
  function Majority(x: Word, y: Word, z: Word): Word { (x & y) ^ (x & z) ^ (y & z) }

  /** Four octets, most significant first. */
  function WordAt(block: seq<Octet>, index: nat): Word
    requires 4 * index + 4 <= |block|
  {
    ((block[4 * index] as Word) << 24) | ((block[4 * index + 1] as Word) << 16)
    | ((block[4 * index + 2] as Word) << 8) | (block[4 * index + 3] as Word)
  }

  /** Section 6.2.2, step 1: word `t` of the message schedule. */
  function Schedule(block: seq<Octet>, t: nat): Word
    requires |block| == 64
  {
    if t < 16 then WordAt(block, t)
    else
      Sum4(SmallSigma1(Schedule(block, t - 2)), Schedule(block, t - 7), SmallSigma0(Schedule(block, t - 15)), Schedule(block, t - 16))
  }

  /** Section 6.2.2, step 3: one round. */
  function Round(r: Registers, k: Word, w: Word): Registers {
    var t1 := Add(Add(Add(Add(r.h, BigSigma1(r.e)), Choice(r.e, r.f, r.g)), k), w);
    var t2 := Add(BigSigma0(r.a), Majority(r.a, r.b, r.c));
    Registers(Add(t1, t2), r.a, r.b, r.c, Add(r.d, t1), r.e, r.f, r.g)
  }

  function Rounds(start: Registers, block: seq<Octet>, count: nat): Registers
    requires |block| == 64 && count <= |CONSTANTS|
  {
    if count == 0 then start
    else Round(Rounds(start, block, count - 1), CONSTANTS[count - 1], Schedule(block, count - 1))
  }

  function AddRegisters(x: Registers, y: Registers): Registers {
    Registers(Add(x.a, y.a), Add(x.b, y.b), Add(x.c, y.c), Add(x.d, y.d),
              Add(x.e, y.e), Add(x.f, y.f), Add(x.g, y.g), Add(x.h, y.h))
  }

  /** Section 6.2.2, step 4: the next hash value. */
  function Compress(hash: Registers, block: seq<Octet>): Registers
    requires |block| == 64
  {
    ConstantCount();
    AddRegisters(hash, Rounds(hash, block, 64))
  }

  function HashBlocks(bytes: seq<Octet>, count: nat): Registers
    requires 64 * count <= |bytes|
  {
    if count == 0 then INITIAL
    else Compress(HashBlocks(bytes, count - 1), bytes[64 * (count - 1)..64 * count])
  }

  /** Section 5.1.1: the number of zero octets after the 0x80 marker. */
  function ZeroOctets(length: nat): nat {
    (119 - length % 64) % 64
  }

  /** The length in bits as a 64-bit number, most significant octet first. */
  function LengthOctets(bits: nat): seq<Octet> {
    seq(8, i requires 0 <= i < 8 => OctetOf(bits, 7 - i))
  }

  function Power256(n: nat): nat {
    if n == 0 then 1 else 256 * Power256(n - 1)
  }

  /** The octet of weight 256^place. */
  function OctetOf(value: nat, place: nat): Octet
  {
    Power256Positive(place);
    (value / Power256(place) % 256) as Octet
  }

  lemma Power256Positive(n: nat)
    ensures Power256(n) > 0
  {
  }

  function Pad(message: seq<Octet>): seq<Octet> {
    message + [0x80] + Zeros(ZeroOctets(|message|)) + LengthOctets(8 * |message|)
  }

  function Zeros(count: nat): seq<Octet> {
    seq(count, _ => 0)
  }

  /** The marker, the zeros and the length fill whole blocks, with the fewest zeros that do. */
  lemma PaddingIsMinimal(message: seq<Octet>)
    ensures |Pad(message)| % 64 == 0
    ensures (8 * |message| + 8 + 8 * ZeroOctets(|message|)) % 512 == 448
    ensures forall k: nat :: (8 * |message| + 8 + 8 * k) % 512 == 448 ==> k >= ZeroOctets(|message|)
  {
    hide ZeroOctets;
    var length := |message|;
    assert length == 64 * (length / 64) + length % 64;
    assert |Pad(message)| == length + 1 + ZeroOctets(length) + 8;
    ZerosComplete(length / 64, length % 64);
    WholeBlocks(length + 1 + ZeroOctets(length));
    BitsAndOctets(length + 1 + ZeroOctets(length));
    forall k: nat | (8 * length + 8 + 8 * k) % 512 == 448
      ensures k >= ZeroOctets(length)
    {
      BitsAndOctets(length + 1 + k);
      ZerosNeeded(length / 64, length % 64, k);
    }
  }

  lemma WholeBlocks(octets: nat)
    requires octets % 64 == 56
    ensures (octets + 8) % 64 == 0
  {
    assert octets + 8 == 64 * (octets / 64 + 1);
  }

  lemma BitsAndOctets(octets: nat)
    ensures 8 * octets % 512 == 8 * (octets % 64)
  {
    RemainderOf(octets / 64, 8 * (octets % 64));
  }

  lemma RemainderOf(quotient: nat, rest: nat)
    requires rest < 512
    ensures (512 * quotient + rest) % 512 == rest
  {
  }

  lemma ZerosComplete(blocks: nat, rest: nat)
    requires rest < 64
    ensures ZeroOctets(64 * blocks + rest) == (119 - rest) % 64
    ensures (64 * blocks + rest + 1 + (119 - rest) % 64) % 64 == 56
  {
    assert (64 * blocks + rest) % 64 == rest;
    var zeros := if rest <= 55 then 55 - rest else 119 - rest;
    assert (119 - rest) % 64 == zeros;
    assert 64 * blocks + rest + 1 + zeros == 64 * (if rest <= 55 then blocks else blocks + 1) + 56;
  }

  lemma ZerosNeeded(blocks: nat, rest: nat, k: nat)
    requires rest < 64 && (64 * blocks + rest + 1 + k) % 64 == 56
    ensures k >= (119 - rest) % 64
  {
    if k < 64 && rest + 1 + k < 64 {
      assert (64 * blocks + (rest + 1 + k)) % 64 == rest + 1 + k;
    } else if k < 64 {
      assert (64 * (blocks + 1) + (rest + 1 + k - 64)) % 64 == (rest + 1 + k - 64) % 64;
    }
  }

  /** One word as four octets, most significant first. */
  function WordOctets(w: Word): seq<Octet> {
    [((w >> 24) & 0xff) as Octet, ((w >> 16) & 0xff) as Octet, ((w >> 8) & 0xff) as Octet, (w & 0xff) as Octet]
  }

  function DigestOf(r: Registers): seq<Octet> {
    WordOctets(r.a) + WordOctets(r.b) + WordOctets(r.c) + WordOctets(r.d)
    + WordOctets(r.e) + WordOctets(r.f) + WordOctets(r.g) + WordOctets(r.h)
  }

  /** The one-shot hash. */
  function Sha256(message: seq<Octet>): seq<Octet> {
    DigestOf(HashBlocks(Pad(message), |Pad(message)| / 64))
  }

  /** Rotating by shifts loses no bit: it is the machine rotation for every amount used. */
  lemma RotationsAreRotations(x: Word)
    ensures RotateRight(x, 2) == x.RotateRight(2) && RotateRight(x, 13) == x.RotateRight(13)
    ensures RotateRight(x, 22) == x.RotateRight(22) && RotateRight(x, 6) == x.RotateRight(6)
    ensures RotateRight(x, 11) == x.RotateRight(11) && RotateRight(x, 25) == x.RotateRight(25)
    ensures RotateRight(x, 7) == x.RotateRight(7) && RotateRight(x, 18) == x.RotateRight(18)
    ensures RotateRight(x, 17) == x.RotateRight(17) && RotateRight(x, 19) == x.RotateRight(19)
  {
  }

  /** The original adds the schedule terms in another order. */
  lemma AdditionReorders(w16: Word, s0: Word, w7: Word, s1: Word)
    ensures Sum4(w16, s0, w7, s1) == Sum4(s1, w7, s0, w16)
  {
  }

  function RegistersOf(words: seq<Word>): Registers
    requires |words| == 8
  {
    Registers(words[0], words[1], words[2], words[3], words[4], words[5], words[6], words[7])
  }

  // ----- Streaming -----

  /** What has been hashed and what waits in the buffer after absorbing `bytes`. */
  function FullBlocks(bytes: seq<Octet>): nat {
    |bytes| / 64
  }

  function Pending(bytes: seq<Octet>): seq<Octet> {
    bytes[64 * FullBlocks(bytes)..]
  }

  lemma {:induction false} HashBlocksOfPrefix(a: seq<Octet>, b: seq<Octet>, count: nat)
    requires 64 * count <= |a| && a <= b
    ensures HashBlocks(a, count) == HashBlocks(b, count)
  {
    hide Compress;
    if count > 0 {
      HashBlocksOfPrefix(a, b, count - 1);
      assert a[64 * (count - 1)..64 * count] == b[64 * (count - 1)..64 * count];
    }
  }

  /** A chunk that fits the buffer starts a new block exactly when it fills it. */
  lemma BlocksAfter(length: nat, more: nat)
    requires length - 64 * (length / 64) + more <= 64
    ensures (length + more) / 64 == if length - 64 * (length / 64) + more < 64 then length / 64 else length / 64 + 1
  {
  }

  lemma DropOfConcatenation(a: seq<Octet>, b: seq<Octet>, n: nat)
    requires n <= |a|
    ensures (a + b)[n..] == a[n..] + b
  {
  }

  /** A hasher that has absorbed nothing: no block, nothing waiting, the initial hash value. */
  lemma NothingAbsorbed()
    ensures FullBlocks([]) == 0 && Pending([]) == [] && HashBlocks([], 0) == INITIAL
  {
    hide Compress, INITIAL;
  }

  /** Absorbing a chunk that does not fill the buffer only lengthens what waits. */
  lemma AbsorbPartial(bytes: seq<Octet>, chunk: seq<Octet>)
    requires |Pending(bytes)| + |chunk| < 64
    ensures FullBlocks(bytes + chunk) == FullBlocks(bytes) && Pending(bytes + chunk) == Pending(bytes) + chunk
    ensures HashBlocks(bytes + chunk, FullBlocks(bytes + chunk)) == HashBlocks(bytes, FullBlocks(bytes))
  {
    hide HashBlocks, Compress;
    BlocksAfter(|bytes|, |chunk|);
    HashBlocksOfPrefix(bytes, bytes + chunk, FullBlocks(bytes));
    DropOfConcatenation(bytes, chunk, 64 * FullBlocks(bytes));
  }

  /** Absorbing a chunk that fills the buffer compresses it as the next block. */
  lemma AbsorbFull(bytes: seq<Octet>, chunk: seq<Octet>)
    requires |Pending(bytes)| + |chunk| == 64
    ensures FullBlocks(bytes + chunk) == FullBlocks(bytes) + 1 && Pending(bytes + chunk) == []
    ensures HashBlocks(bytes + chunk, FullBlocks(bytes + chunk))
         == Compress(HashBlocks(bytes, FullBlocks(bytes)), Pending(bytes) + chunk)
  {
    hide Compress;
    var joined, n := bytes + chunk, FullBlocks(bytes);
    BlocksAfter(|bytes|, |chunk|);
    HashBlocksOfPrefix(bytes, joined, n);
    assert joined[64 * n..64 * (n + 1)] == Pending(bytes) + chunk;
  }

  class IncrementalSha256 {
    const state: array<Word>
    const buffer: array<Octet>
    const words: array<Word>
    var bufferLength: nat
    var bytesHashed: nat
    var finished: bool

    /** The message given to `update` so far, and everything absorbed, padding included. */
    ghost var message: seq<Octet>
    ghost var absorbed: seq<Octet>

    /** The buffers agree with the bytes absorbed. */
    ghost predicate Consistent()
      reads this, state, buffer
    {
      && state.Length == 8 && buffer.Length == 64 && words.Length == 64 && state != words
      && bufferLength == |Pending(absorbed)|
      && buffer[..bufferLength] == Pending(absorbed)
      && RegistersOf(state[..]) == HashBlocks(absorbed, FullBlocks(absorbed))
    }

    ghost predicate Valid()
      reads this, state, buffer
    {
      && Consistent()
      && (!finished ==> absorbed == message && bytesHashed == |message|)
      && (finished ==> absorbed == Pad(message))
    }

    constructor ()
      ensures Valid() && !finished && message == []
      ensures fresh(state) && fresh(buffer) && fresh(words)
    {
      hide CONSTANTS, Compress, Schedule, Rounds, HashBlocks, FullBlocks, Pending, Pad;
      NothingAbsorbed();
      var initial := new Word[8] [0x6a09e667, 0xbb67ae85, 0x3c6ef372, 0xa54ff53a, 0x510e527f, 0x9b05688c, 0x1f83d9ab, 0x5be0cd19];
      state := initial;
      buffer := new Octet[64];
      words := new Word[64];
      bufferLength, bytesHashed, finished := 0, 0, false;
      message, absorbed := [], [];
      new;
      assert RegistersOf(state[..]) == INITIAL;
    }

    /** Fills the schedule from the buffer. */
    method ExpandSchedule()
      requires buffer.Length == 64 && words.Length == 64
      modifies words
      ensures forall t :: 0 <= t < 64 ==> words[t] == Schedule(buffer[..], t)
    {
      hide SmallSigma0, SmallSigma1, WordAt, Sum4;
      for index := 0 to 16
        invariant forall t :: 0 <= t < index ==> words[t] == Schedule(buffer[..], t)
      {
        words[index] := WordAt(buffer[..], index);
      }
      for index := 16 to 64
        invariant forall t :: 0 <= t < index ==> words[t] == Schedule(buffer[..], t)
      {
        var s0 := SmallSigma0(words[index - 15]);
        var s1 := SmallSigma1(words[index - 2]);
        AdditionReorders(words[index - 16], s0, words[index - 7], s1);
        words[index] := Sum4(words[index - 16], s0, words[index - 7], s1);
      }
    }

    /** The sixty-four rounds over the schedule. */
    method RunRounds(start: Registers, ghost block: seq<Octet>) returns (r: Registers)
      requires words.Length == 64 && |block| == 64
      requires forall t :: 0 <= t < 64 ==> words[t] == Schedule(block, t)
      ensures |CONSTANTS| == 64 && r == Rounds(start, block, 64)
    {
      hide BigSigma0, BigSigma1, Choice, Majority, CONSTANTS, Add, Schedule;
      ConstantCount();
      var a, b, c, d, e, f, g, h := start.a, start.b, start.c, start.d, start.e, start.f, start.g, start.h;
      for index := 0 to 64
        invariant Registers(a, b, c, d, e, f, g, h) == Rounds(start, block, index)
      {
        var s1 := BigSigma1(e);
        var choice := Choice(e, f, g);
        var temp1 := Add(Add(Add(Add(h, s1), choice), CONSTANTS[index]), words[index]);
        var s0 := BigSigma0(a);
        var majority := Majority(a, b, c);
        var temp2 := Add(s0, majority);
        h := g;
        g := f;
        f := e;
        e := Add(d, temp1);
        d := c;
        c := b;
        b := a;
        a := Add(temp1, temp2);
      }
      return Registers(a, b, c, d, e, f, g, h);
    }

    /** Compresses the buffer as one block into the hash value. */
    method ProcessBlock()
      requires state.Length == 8 && buffer.Length == 64 && words.Length == 64 && state != words
      modifies state, words
      ensures RegistersOf(state[..]) == Compress(old(RegistersOf(state[..])), buffer[..])
    {
      hide Rounds, Schedule, CONSTANTS, Add;
      ExpandSchedule();
      var start := Registers(state[0], state[1], state[2], state[3], state[4], state[5], state[6], state[7]);
      var r := RunRounds(start, buffer[..]);
      state[0] := Add(state[0], r.a);
      state[1] := Add(state[1], r.b);
      state[2] := Add(state[2], r.c);
      state[3] := Add(state[3], r.d);
      state[4] := Add(state[4], r.e);
      state[5] := Add(state[5], r.f);
      state[6] := Add(state[6], r.g);
      state[7] := Add(state[7], r.h);
    }

    /** Absorbs bytes without looking at `finished`: the loop of `update`. */
    method Absorb(input: seq<Octet>)
      requires Consistent()
      modifies this`bufferLength, this`absorbed, state, buffer, words
      ensures Consistent() && absorbed == old(absorbed) + input
    {
      hide Compress, HashBlocks, FullBlocks, Pending, RegistersOf;
      var position: nat := 0;
      ghost var start := absorbed;
      assert start + input[..0] == start;
      while position < |input|
        invariant position <= |input|
        invariant Consistent() && absorbed == start + input[..position]
        decreases |input| - position
      {
        PendingIsShort(absorbed);
        var take := if 64 - bufferLength <= |input| - position then 64 - bufferLength else |input| - position;
        Take(input, position, take);
        position := position + take;
        assert input[..position] == input[..position - take] + input[position - take..position];
      }
      assert input[..position] == input;
    }

    /** One turn of that loop: the chunk goes into the buffer, and a full buffer is compressed. */
    method Take(input: seq<Octet>, position: nat, take: nat)
      requires Consistent() && bufferLength + take <= 64 && position + take <= |input|
      modifies this`bufferLength, this`absorbed, state, buffer, words
      ensures Consistent() && absorbed == old(absorbed) + input[position..position + take]
    {
      hide Compress, HashBlocks, FullBlocks, Pending, RegistersOf;
      ghost var chunk := input[position..position + take];
      ghost var waiting := Pending(absorbed);
      CopyIn(input, position, take);
      bufferLength := bufferLength + take;
      if bufferLength == 64 {
        AbsorbFull(absorbed, chunk);
        assert buffer[..] == waiting + chunk;
        ProcessBlock();
        bufferLength := 0;
      } else {
        AbsorbPartial(absorbed, chunk);
      }
      absorbed := absorbed + chunk;
    }

    /** `buffer.set(input.subarray(position, position + take), bufferLength)`. */
    method CopyIn(input: seq<Octet>, position: nat, take: nat)
      requires buffer.Length == 64 && bufferLength + take <= 64 && position + take <= |input|
      modifies buffer
      ensures buffer[..bufferLength] == old(buffer[..bufferLength])
      ensures buffer[bufferLength..bufferLength + take] == input[position..position + take]
      ensures buffer[..bufferLength + take] == old(buffer[..bufferLength]) + input[position..position + take]
    {
      for i := 0 to take
        invariant buffer[..bufferLength] == old(buffer[..bufferLength])
        invariant buffer[bufferLength..bufferLength + i] == input[position..position + i]
      {
        buffer[bufferLength + i] := input[position + i];
      }
      assert buffer[..bufferLength + take] == buffer[..bufferLength] + buffer[bufferLength..bufferLength + take];
    }

    /** `update`: refused after the digest was taken, otherwise the message grows by the chunk. */
    method Update(input: seq<Octet>) returns (r: Result<(), string>)
      requires Valid()
      modifies this, state, buffer, words
      ensures Valid() && finished == old(finished)
      ensures old(finished) ==> r.Err? && message == old(message) && absorbed == old(absorbed)
      ensures !old(finished) ==> r.Ok? && message == old(message) + input
    {
      hide Pad, Compress, HashBlocks, FullBlocks, Pending, RegistersOf;
      if finished { return Err("SHA-256 state is already finalized"); }
      bytesHashed := bytesHashed + |input|;
      Absorb(input);
      message := message + input;
      return Ok(());
    }

    /** `digestBytes`: pads once, then reads the hash value. The result is the one-shot hash of the
        message, however it was cut, and asking again gives the same octets. */
    method DigestBytes() returns (digest: seq<Octet>)
      requires Valid() && |message| < 0x20_0000_0000_0000
      modifies this, state, buffer, words
      ensures Valid() && finished && message == old(message)
      ensures digest == Sha256(message)
    {
      hide Compress, HashBlocks, Pad, DigestOf, OctetOf, Zeros;
      if !finished {
        var originalLength := bytesHashed;
        PendingIsShort(absorbed);
        var paddingLength := if bufferLength < 56 then 56 - bufferLength else 120 - bufferLength;
        var high := (originalLength / 0x2000_0000) % 0x1_0000_0000;
        var low := (originalLength * 8) % 0x1_0000_0000;
        var padding := [0x80] + Zeros(paddingLength - 1) + Uint32Octets(high) + Uint32Octets(low);
        PaddingIsThePad(message, paddingLength);
        bytesHashed := bytesHashed + |padding|;
        Absorb(padding);
        finished := true;
      }
      PadFillsBlocks(message);
      digest := DigestOf(Registers(state[0], state[1], state[2], state[3], state[4], state[5], state[6], state[7]));
    }
  }

  lemma PendingIsShort(bytes: seq<Octet>)
    ensures |Pending(bytes)| == |bytes| % 64 < 64
  {
  }

  /** `DataView.setUint32` of a number below 2^32, most significant octet first. */
  function Uint32Octets(value: nat): seq<Octet> {
    [OctetOf(value, 3), OctetOf(value, 2), OctetOf(value, 1), OctetOf(value, 0)]
  }

  /** The padding the original builds is the padding of the standard. */
  lemma PaddingIsThePad(message: seq<Octet>, paddingLength: nat)
    requires |message| < 0x20_0000_0000_0000
    requires paddingLength == if |message| % 64 < 56 then 56 - |message| % 64 else 120 - |message| % 64
    ensures var high := (|message| / 0x2000_0000) % 0x1_0000_0000;
            var low := (|message| * 8) % 0x1_0000_0000;
            Pad(message) == message + ([0x80] + Zeros(paddingLength - 1) + Uint32Octets(high) + Uint32Octets(low))
  {
    hide OctetOf;
    assert ZeroOctets(|message|) == paddingLength - 1;
    LengthSplits(|message|);
  }

  /** The 64-bit length is the two 32-bit numbers the original writes. */
  lemma LengthSplits(length: nat)
    requires length < 0x20_0000_0000_0000
    ensures LengthOctets(8 * length)
         == Uint32Octets((length / 0x2000_0000) % 0x1_0000_0000) + Uint32Octets((length * 8) % 0x1_0000_0000)
  {
    hide OctetOf;
    var high := (length / 0x2000_0000) % 0x1_0000_0000;
    var low := (length * 8) % 0x1_0000_0000;
    var right := Uint32Octets(high) + Uint32Octets(low);
    assert 8 * length == high * 0x1_0000_0000 + low;
    forall i | 0 <= i < 8
      ensures LengthOctets(8 * length)[i] == right[i]
    {
      if i < 4 {
        HighOctet(high, low, 3 - i);
      } else {
        LowOctet(high, low, 7 - i);
      }
    }
  }

  lemma HighOctet(high: nat, low: nat, place: nat)
    requires low < 0x1_0000_0000 && place < 4
    ensures OctetOf(high * 0x1_0000_0000 + low, place + 4) == OctetOf(high, place)
  {
    PowerValues();
  }

  lemma LowOctet(high: nat, low: nat, place: nat)
    requires low < 0x1_0000_0000 && place < 4
    ensures OctetOf(high * 0x1_0000_0000 + low, place) == OctetOf(low, place)
  {
    PowerValues();
    SameLowDigit(high, low, place);
  }

  lemma SameLowDigit(high: nat, low: nat, place: nat)
    requires low < 0x1_0000_0000 && place < 4 && Power256(place) > 0
    ensures (high * 0x1_0000_0000 + low) / Power256(place) % 256 == low / Power256(place) % 256
  {
    PowerValues();
    DropHigh(high, low);
    if place == 0 {
      KeepLowOctet(high * 0x100_0000, low);
    } else if place == 1 {
      KeepLowOctet(high * 0x1_0000, low / 0x100);
    } else if place == 2 {
      KeepLowOctet(high * 0x100, low / 0x1_0000);
    } else {
      KeepLowOctet(high, low / 0x100_0000);
    }
  }

  lemma DropHigh(high: nat, low: nat)
    ensures (high * 0x1_0000_0000 + low) / 0x100 == 256 * (high * 0x1_0000) + low / 0x100
    ensures (high * 0x1_0000_0000 + low) / 0x1_0000 == 256 * (high * 0x100) + low / 0x1_0000
    ensures (high * 0x1_0000_0000 + low) / 0x100_0000 == 256 * high + low / 0x100_0000
  {
  }

  lemma KeepLowOctet(above: nat, low: nat)
    ensures (256 * above + low) % 256 == low % 256
  {
  }

  lemma PowerValues()
    ensures Power256(0) == 1 && Power256(1) == 0x100 && Power256(2) == 0x1_0000 && Power256(3) == 0x100_0000
    ensures Power256(4) == 0x1_0000_0000 && Power256(5) == 0x100_0000_0000
    ensures Power256(6) == 0x1_0000_0000_0000 && Power256(7) == 0x100_0000_0000_0000
  {
  }

  lemma PadFillsBlocks(message: seq<Octet>)
    ensures |Pad(message)| % 64 == 0 && FullBlocks(Pad(message)) == |Pad(message)| / 64
  {
    PaddingIsMinimal(message);
  }

  function Flatten(chunks: seq<seq<Octet>>): seq<Octet> {
    if chunks == [] then [] else Flatten(chunks[..|chunks| - 1]) + chunks[|chunks| - 1]
  }

  /** Any way of cutting a message gives its one-shot hash, and the digest can be read again. */
  method HashChunks(chunks: seq<seq<Octet>>) returns (first: seq<Octet>, second: seq<Octet>)
    requires |Flatten(chunks)| < 0x20_0000_0000_0000
    ensures first == Sha256(Flatten(chunks)) && second == first
  {
    hide Sha256;
    var hasher := new IncrementalSha256();
    for i := 0 to |chunks|
      invariant hasher.Valid() && !hasher.finished && hasher.message == Flatten(chunks[..i])
      invariant fresh(hasher) && fresh(hasher.state) && fresh(hasher.buffer) && fresh(hasher.words)
    {
      assert chunks[..i + 1][..i] == chunks[..i];
      var accepted := hasher.Update(chunks[i]);
    }
    assert chunks[..|chunks|] == chunks;
    first := hasher.DigestBytes();
    second := hasher.DigestBytes();
  }
}
