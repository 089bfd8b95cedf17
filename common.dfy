/** Small shared vocabulary: an optional value and the truncation of a
    32-bit register word to its low byte. */
module Common {

  datatype Option<+T> = None | Some(value: T)

  /** `(uint8_t)word`: the low eight bits of a register word. */
  function LowByte(w: bv32): (b: bv8)
    ensures b as bv32 == w & 0xFF
  {
    (w & 0xFF) as bv8
  }

  /** A byte widened to a word and truncated again is the same byte. */
  lemma LowByteOfByte(b: bv8)
    ensures LowByte(b as bv32) == b
  {
  }

  /** Taking `n + 1` elements of a sequence is its head followed by `n`
      elements of its tail. */
  lemma PrefixOfTail<T>(s: seq<T>, n: nat)
    requires n < |s|
    ensures s[..n + 1] == [s[0]] + s[1..][..n]
  {
  }

  lemma AppendAssoc<T>(a: seq<T>, b: seq<T>, c: seq<T>)
    ensures (a + b) + c == a + (b + c)
  {
  }

  /** `(uint8_t)x` for an `int` holding a byte value gives that byte back. */
  lemma ByteRoundTrip(b: bv8)
    ensures ((b as int) % 256) as bv8 == b
  {
    assert (b as int) % 256 == b as int;
  }

  /** Taking one more element of a sequence appends that element. */
  lemma TakeOneMore<T>(s: seq<T>, i: nat)
    requires i < |s|
    ensures s[..i + 1] == s[..i] + [s[i]]
  {
  }

  /** Dropping `i` elements and then one more drops `i + 1`. */
  lemma DropOneMore<T>(s: seq<T>, i: nat)
    requires i < |s|
    ensures s[i..][1..] == s[i + 1..]
  {
  }

  /** Overwriting the first element after a filled prefix extends the
      prefix by that value. */
  lemma UpdateAtSeam<T>(done: seq<T>, x: T, rest: seq<T>)
    requires |rest| > 0
    ensures (done + rest)[|done| := x] == (done + [x]) + rest[1..]
  {
  }
}
