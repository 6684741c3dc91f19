/** Bytes and big-endian 32-bit words. */
module Wire {

  type byte = x: int | 0 <= x < 256
  type word = x: int | 0 <= x < 0x1_0000_0000

  /** The four bytes of a word, most significant first. */
  function Word(w: word): (r: seq<byte>)
    ensures |r| == 4
  {
    [w / 0x100_0000, w / 0x1_0000 % 256, w / 0x100 % 256, w % 256]
  }

  /** The word that four bytes spell. */
  function Value(b: seq<byte>): (w: word)
    requires |b| == 4
  {
    b[0] as int * 0x100_0000 + b[1] as int * 0x1_0000 + b[2] as int * 0x100 + b[3] as int
  }

  lemma {:induction false} WordValue(w: word)
    ensures Value(Word(w)) == w
  {
    assert w / 0x1_0000 == w / 0x1_0000 / 256 * 256 + w / 0x1_0000 % 256;
    assert w / 0x100 == w / 0x100 / 256 * 256 + w / 0x100 % 256;
    assert w / 0x1_0000 / 256 == w / 0x100_0000;
    assert w / 0x100 / 256 == w / 0x1_0000;
  }

  lemma {:induction false} ValueWord(b: seq<byte>)
    requires |b| == 4
    ensures Word(Value(b)) == b
  {
    var w := Value(b);
    var hi := b[0] as int * 256 + b[1] as int;
    var mid := hi * 256 + b[2] as int;
    assert w == mid * 256 + b[3] as int;
    assert w / 256 == mid && w % 256 == b[3];
    assert mid / 256 == hi && mid % 256 == b[2];
    assert hi / 256 == b[0] && hi % 256 == b[1];
    assert w / 0x1_0000 == w / 256 / 256;
    assert w / 0x100_0000 == w / 0x1_0000 / 256;
  }

  /** The lexicographic order of byte strings of one length. */
  predicate Before(a: seq<byte>, b: seq<byte>)
    requires |a| == |b|
  {
    a != [] && (a[0] < b[0] || (a[0] == b[0] && Before(a[1..], b[1..])))
  }

  lemma {:induction false} BeforeConcat(a: seq<byte>, b: seq<byte>, c: seq<byte>, d: seq<byte>)
    requires |a| == |c| && |b| == |d|
    ensures Before(a + b, c + d) <==> Before(a, c) || (a == c && Before(b, d))
    decreases |a|
  {
    if a == [] {
      assert a + b == b && c + d == d;
    } else {
      assert (a + b)[1..] == a[1..] + b && (c + d)[1..] == c[1..] + d;
      BeforeConcat(a[1..], b, c[1..], d);
      assert a == c <==> a[0] == c[0] && a[1..] == c[1..];
    }
  }

  lemma {:induction false} ValueOrder(a: seq<byte>, b: seq<byte>)
    requires |a| == |b| == 4
    ensures Value(a) < Value(b) <==> Before(a, b)
  {
    assert Before(a[3..], b[3..]) <==> a[3] < b[3];
    assert Before(a[2..], b[2..]) <==> a[2] < b[2] || (a[2] == b[2] && a[3] < b[3]);
    assert Before(a[1..], b[1..]) <==> a[1] < b[1] || (a[1] == b[1] && Before(a[2..], b[2..]));
  }

  /** Words are ordered as their bytes are: with ValueWord, the most significant byte is the first. */
  lemma {:induction false} WordOrder(v: word, w: word)
    ensures v < w <==> Before(Word(v), Word(w))
  {
    WordValue(v);
    WordValue(w);
    ValueOrder(Word(v), Word(w));
  }
}
