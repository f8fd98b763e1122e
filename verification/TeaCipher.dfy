/** The block ciphers of the encrypted regions, on 32-bit words. */
module TeaCipher {

  type Word = bv32

  datatype Block = Block(v0: Word, v1: Word)

  datatype Key = Key(k0: Word, k1: Word, k2: Word, k3: Word)

  const DELTA: Word := 0x9E3779B9

  /** Arithmetic modulo two to the 32. */
  function Plus(a: Word, b: Word): Word { a + b }

  function Minus(a: Word, b: Word): Word { a - b }

  function Times(a: Word, b: Word): Word { a * b }

  function MixHigh(v: Word, sum: Word, key: Key): Word {
    ((v << 4) + key.k2) ^ (v + sum) ^ ((v >> 5) + key.k3)
  }

  function MixLow(v: Word, sum: Word, key: Key): Word {
    ((v << 4) + key.k0) ^ (v + sum) ^ ((v >> 5) + key.k1)
  }

  /** One round of decryption with the running sum. */
  function Unround(b: Block, sum: Word, key: Key): Block {
    var v1 := Minus(b.v1, MixHigh(b.v0, sum, key));
    Block(Minus(b.v0, MixLow(v1, sum, key)), v1)
  }

  /** One round of the published encryption. */
  function Round(b: Block, sum: Word, key: Key): Block {
    var v0 := Plus(b.v0, MixLow(b.v1, sum, key));
    Block(v0, Plus(b.v1, MixHigh(v0, sum, key)))
  }

  /** The running sum after `n` rounds of encryption. */
  function SumAfter(n: nat): Word {
    if n == 0 then 0 else Plus(SumAfter(n - 1), DELTA)
  }

  function Encrypt(b: Block, n: nat, key: Key): Block {
    if n == 0 then b else Round(Encrypt(b, n - 1, key), SumAfter(n), key)
  }

  function Decrypt(b: Block, n: nat, key: Key): Block
    decreases n
  {
    if n == 0 then b else Decrypt(Unround(b, SumAfter(n), key), n - 1, key)
  }

  lemma UnroundUndoes(b: Block, sum: Word, key: Key)
    ensures Unround(Round(b, sum, key), sum, key) == b
    ensures Round(Unround(b, sum, key), sum, key) == b
  {
    hide MixLow, MixHigh, Plus, Minus;
    var r, u := Round(b, sum, key), Unround(b, sum, key);
    BackAndForth(b.v0, MixLow(b.v1, sum, key));
    BackAndForth(b.v1, MixHigh(r.v0, sum, key));
    BackAndForth(b.v1, MixHigh(b.v0, sum, key));
    BackAndForth(b.v0, MixLow(u.v1, sum, key));
  }

  /** Decryption undoes encryption, for every block, key and number of rounds. */
  lemma {:induction false} DecryptUndoes(b: Block, n: nat, key: Key)
    ensures Decrypt(Encrypt(b, n, key), n, key) == b
  {
    hide Round, Unround, SumAfter;
    if n > 0 {
      UnroundUndoes(Encrypt(b, n - 1, key), SumAfter(n), key);
      DecryptUndoes(b, n - 1, key);
    }
  }

  /** The starting sum of the source is the sum after 32 rounds. */
  lemma SumIs()
    ensures SumAfter(32) == 0xC6EF3720
  {
    assert SumAfter(4) == 0x78DDE6E4;
    assert SumAfter(8) == 0xF1BBCDC8;
    assert SumAfter(12) == 0x6A99B4AC;
    assert SumAfter(16) == 0xE3779B90;
    assert SumAfter(20) == 0x5C558274;
    assert SumAfter(24) == 0xD5336958;
    assert SumAfter(28) == 0x4E11503C;
  }

  lemma SumBack(n: nat)
    requires n > 0
    ensures Minus(SumAfter(n), DELTA) == SumAfter(n - 1)
  {
    BackAndForth(SumAfter(n - 1), DELTA);
  }

  lemma MinusUndoesPlus(a: Word, b: Word)
    ensures (a + b) - b == a
  {
  }

  lemma PlusUndoesMinus(a: Word, b: Word)
    ensures (a - b) + b == a
  {
  }

  lemma BackAndForth(a: Word, b: Word)
    ensures Minus(Plus(a, b), b) == a && Plus(Minus(a, b), b) == a
  {
    calc {
      Minus(Plus(a, b), b);
      Minus(a + b, b);
      (a + b) - b;
      { MinusUndoesPlus(a, b); }
      a;
    }
    calc {
      Plus(Minus(a, b), b);
      Plus(a - b, b);
      (a - b) + b;
      { PlusUndoesMinus(a, b); }
      a;
    }
  }

  /** `dearxan_tea_decrypt` */
  method TeaDecrypt(block: Block, key: Key) returns (out: Block)
    ensures out == Decrypt(block, 32, key)
  {
    hide Decrypt, SumAfter, MixLow, MixHigh, Plus, Minus;
    SumIs();
    var sum: Word := 0xC6EF3720;
    out := block;
    var i: nat := 0;
    while i < 32
      invariant i <= 32 && sum == SumAfter(32 - i) && Decrypt(out, 32 - i, key) == Decrypt(block, 32, key)
    {
      DecryptStep(out, 32 - i, key);
      SumBack(32 - i);
      var v1 := Minus(out.v1, MixHigh(out.v0, sum, key));
      out := Block(Minus(out.v0, MixLow(v1, sum, key)), v1);
      sum := Minus(sum, DELTA);
      i := i + 1;
    }
    DecryptNone(out, key);
  }

  lemma DecryptStep(b: Block, n: nat, key: Key)
    requires n > 0
    ensures Decrypt(b, n, key) == Decrypt(Unround(b, SumAfter(n), key), n - 1, key)
  {
  }

  lemma DecryptNone(b: Block, key: Key)
    ensures Decrypt(b, 0, key) == b
  {
  }

  lemma OneRound(b: Block, n: nat, sum: Word, key: Key)
    requires n > 0 && SumAfter(n) == sum
    ensures Decrypt(b, n, key) == Decrypt(Unround(b, sum, key), n - 1, key) && SumAfter(n - 1) == Minus(sum, DELTA)
  {
    hide SumAfter, Unround, Minus;
    SumBack(n);
  }

  function FourBack(b: Block, sum: Word, key: Key): Block {
    var sum1 := Minus(sum, DELTA);
    var sum2 := Minus(sum1, DELTA);
    Unround(Unround(Unround(Unround(b, sum, key), sum1, key), sum2, key), Minus(sum2, DELTA), key)
  }

  lemma FourRounds(b: Block, n: nat, sum: Word, key: Key)
    requires n >= 4 && SumAfter(n) == sum
    ensures Decrypt(b, n, key) == Decrypt(FourBack(b, sum, key), n - 4, key)
    ensures SumAfter(n - 4) == Minus(Minus(Minus(Minus(sum, DELTA), DELTA), DELTA), DELTA)
  {
    hide Decrypt, SumAfter, Unround, Minus;
    var sum1 := Minus(sum, DELTA);
    var sum2 := Minus(sum1, DELTA);
    var sum3 := Minus(sum2, DELTA);
    var b1 := Unround(b, sum, key);
    var b2 := Unround(b1, sum1, key);
    OneRound(b, n, sum, key);
    OneRound(b1, n - 1, sum1, key);
    OneRound(b2, n - 2, sum2, key);
    OneRound(Unround(b2, sum2, key), n - 3, sum3, key);
  }

  /** A block whose plain text is known. */
  lemma ZeroKeyVector()
    ensures Decrypt(Block(0x41EA3A0A, 0x94BAA940), 32, Key(0, 0, 0, 0)) == Block(0, 0)
  {
    hide Decrypt, SumAfter;
    SumIs();
    var key := Key(0, 0, 0, 0);
    FourRounds(Block(0x41EA3A0A, 0x94BAA940), 32, 0xC6EF3720, key);
    assert FourBack(Block(0x41EA3A0A, 0x94BAA940), 0xC6EF3720, key) == Block(0x546C3C69, 0x096A4D61);
    FourRounds(Block(0x546C3C69, 0x096A4D61), 28, 0x4E11503C, key);
    assert FourBack(Block(0x546C3C69, 0x096A4D61), 0x4E11503C, key) == Block(0x2AB23274, 0xF046037B);
    FourRounds(Block(0x2AB23274, 0xF046037B), 24, 0xD5336958, key);
    assert FourBack(Block(0x2AB23274, 0xF046037B), 0xD5336958, key) == Block(0x4231F59F, 0xFFF82958);
    FourRounds(Block(0x4231F59F, 0xFFF82958), 20, 0x5C558274, key);
    assert FourBack(Block(0x4231F59F, 0xFFF82958), 0x5C558274, key) == Block(0xA889F798, 0x182D8083);
    FourRounds(Block(0xA889F798, 0x182D8083), 16, 0xE3779B90, key);
    assert FourBack(Block(0xA889F798, 0x182D8083), 0xE3779B90, key) == Block(0x39B4B21B, 0xE0325966);
    FourRounds(Block(0x39B4B21B, 0xE0325966), 12, 0x6A99B4AC, key);
    assert FourBack(Block(0x39B4B21B, 0xE0325966), 0x6A99B4AC, key) == Block(0xED285DA1, 0x455B33C1);
    FourRounds(Block(0xED285DA1, 0x455B33C1), 8, 0xF1BBCDC8, key);
    assert FourBack(Block(0xED285DA1, 0x455B33C1), 0xF1BBCDC8, key) == Block(0x420A1097, 0xBEC5A929);
    FourRounds(Block(0x420A1097, 0xBEC5A929), 4, 0x78DDE6E4, key);
    assert FourBack(Block(0x420A1097, 0xBEC5A929), 0x78DDE6E4, key) == Block(0, 0);
    DecryptNone(Block(0, 0), key);
  }

  /** Another, under a key of four different words. */
  lemma FourKeyVector()
    ensures Decrypt(Block(0x126C6B92, 0xC0653A3E), 32, Key(0x00112233, 0x44556677, 0x8899AABB, 0xCCDDEEFF)) == Block(0x01234567, 0x89ABCDEF)
  {
    hide Decrypt, SumAfter;
    SumIs();
    var key := Key(0x00112233, 0x44556677, 0x8899AABB, 0xCCDDEEFF);
    FourRounds(Block(0x126C6B92, 0xC0653A3E), 32, 0xC6EF3720, key);
    assert FourBack(Block(0x126C6B92, 0xC0653A3E), 0xC6EF3720, key) == Block(0xDB758D1B, 0xFE34CFDE);
    FourRounds(Block(0xDB758D1B, 0xFE34CFDE), 28, 0x4E11503C, key);
    assert FourBack(Block(0xDB758D1B, 0xFE34CFDE), 0x4E11503C, key) == Block(0xB9B257FF, 0x0BB17535);
    FourRounds(Block(0xB9B257FF, 0x0BB17535), 24, 0xD5336958, key);
    assert FourBack(Block(0xB9B257FF, 0x0BB17535), 0xD5336958, key) == Block(0x7D8CD504, 0xAD6C26BD);
    FourRounds(Block(0x7D8CD504, 0xAD6C26BD), 20, 0x5C558274, key);
    assert FourBack(Block(0x7D8CD504, 0xAD6C26BD), 0x5C558274, key) == Block(0x7CF6C003, 0x2C4AF316);
    FourRounds(Block(0x7CF6C003, 0x2C4AF316), 16, 0xE3779B90, key);
    assert FourBack(Block(0x7CF6C003, 0x2C4AF316), 0xE3779B90, key) == Block(0x71CC7317, 0x2F481B8E);
    FourRounds(Block(0x71CC7317, 0x2F481B8E), 12, 0x6A99B4AC, key);
    assert FourBack(Block(0x71CC7317, 0x2F481B8E), 0x6A99B4AC, key) == Block(0xD6546158, 0xB8F8020C);
    FourRounds(Block(0xD6546158, 0xB8F8020C), 8, 0xF1BBCDC8, key);
    assert FourBack(Block(0xD6546158, 0xB8F8020C), 0xF1BBCDC8, key) == Block(0x125E8983, 0x9FFE6453);
    FourRounds(Block(0x125E8983, 0x9FFE6453), 4, 0x78DDE6E4, key);
    assert FourBack(Block(0x125E8983, 0x9FFE6453), 0x78DDE6E4, key) == Block(0x01234567, 0x89ABCDEF);
    DecryptNone(Block(0x01234567, 0x89ABCDEF), key);
  }


  /** The state of the rotating cipher. */
  datatype Rotating = Rotating(key: Word, rotation: Word)

  /** `rotation ^= ~block` */
  function Complement(rotation: Word, p: Word): Word { rotation ^ !p }

  function RotateLeft(value: Word, count: Word): Word {
    var c := count & 31;
    if c == 0 then value else (value << c) | (value >> (32 - c))
  }

  lemma RotateVectors()
    ensures RotateLeft(0x89ABCDE5, 5) == 0x3579BCB1
    ensures RotateLeft(0x3579BCB1, 0xFEDCBA9D) == 0x26AF3796
    ensures RotateLeft(0x26AF3796, 0xDF8EFB80) == 0x26AF3796
  {
  }

  /** `dearxan_rmx_decrypt` */
  function RmxDecrypt(c: Word, s: Rotating): (Word, Rotating) {
    var key := RotateLeft(s.key, s.rotation);
    var p := Minus(c, Times(key, s.rotation));
    (p, Rotating(key, Complement(s.rotation, p)))
  }

  /** The inverse: what must have been done to the plain word. */
  function RmxEncrypt(p: Word, s: Rotating): (Word, Rotating) {
    var key := RotateLeft(s.key, s.rotation);
    (Plus(p, Times(key, s.rotation)), Rotating(key, Complement(s.rotation, p)))
  }

  function RmxDecryptAll(words: seq<Word>, s: Rotating): seq<Word> {
    if words == [] then [] else
      var (p, s') := RmxDecrypt(words[0], s);
      [p] + RmxDecryptAll(words[1..], s')
  }

  function RmxEncryptAll(words: seq<Word>, s: Rotating): seq<Word> {
    if words == [] then [] else
      var (c, s') := RmxEncrypt(words[0], s);
      [c] + RmxEncryptAll(words[1..], s')
  }

  lemma RmxStep(p: Word, s: Rotating)
    ensures RmxDecrypt(RmxEncrypt(p, s).0, s) == (p, RmxEncrypt(p, s).1)
  {
    hide RotateLeft, Plus, Minus, Times, Complement;
    BackAndForth(p, Times(RotateLeft(s.key, s.rotation), s.rotation));
  }

  /** The whole stream comes back although each word changes the key for the next. */
  lemma {:induction false} RmxUndoes(words: seq<Word>, s: Rotating)
    ensures RmxDecryptAll(RmxEncryptAll(words, s), s) == words
  {
    hide RmxDecrypt, RmxEncrypt;
    if words != [] {
      RmxStep(words[0], s);
      var rest := RmxEncryptAll(words[1..], RmxEncrypt(words[0], s).1);
      assert RmxEncryptAll(words, s)[1..] == rest;
      RmxUndoes(words[1..], RmxEncrypt(words[0], s).1);
    }
  }

  /** `dearxan_sub_decrypt` is its own inverse. */
  function SubDecrypt(block: Word, key: Word): (p: Word) {
    Minus(key, block)
  }

  lemma SubUndoes(block: Word, key: Word)
    ensures SubDecrypt(SubDecrypt(block, key), key) == block
  {
    hide Plus, Minus;
    var x := Minus(key, block);
    BackAndForth(key, block);
    BackAndForth(block, x);
    Commutes(x, block);
  }

  lemma Commutes(a: Word, b: Word)
    ensures Plus(a, b) == Plus(b, a)
  {
  }
}
