/** Decrypting a whole stream of encrypted regions, with any of the three ciphers. */
module StreamDecrypt {
  import opened Bits
  import opened Optional
  import opened TeaCipher
  import opened TeaRegions

  datatype Cipher = Tea(key: Key) | Rmx(word: Word) | Sub(word: Word)

  function BlockSize(c: Cipher): nat { if c.Tea? then 8 else 4 }

  /** The stream size in whole blocks. */
  function Rounded(n: nat, block: nat): (r: nat)
    requires block > 0
  {
    (n + block - 1) / block * block
  }

  lemma RoundedIs(n: nat, c: Cipher)
    ensures var r := Rounded(n, BlockSize(c));
            r % BlockSize(c) == 0 && n <= r < n + BlockSize(c) && (n % BlockSize(c) == 0 ==> r == n)
  {
  }

  function Words(bytes: seq<Byte>): seq<Word> {
    if |bytes| < 4 then [] else [WordOf(bytes[..4])] + Words(bytes[4..])
  }

  function WordsBytes(words: seq<Word>): seq<Byte> {
    if words == [] then [] else BytesOf(words[0]) + WordsBytes(words[1..])
  }

  function SubAll(words: seq<Word>, key: Word): (r: seq<Word>) {
    if words == [] then [] else [SubDecrypt(words[0], key)] + SubAll(words[1..], key)
  }

  function RmxStart(key: Word): Rotating { Rotating(key, key & 0x1f) }

  /** What the bytes decrypt to. */
  function Plaintext(c: Cipher, bytes: seq<Byte>): seq<Byte> {
    match c
    case Tea(key) => PlainAll(bytes, key)
    case Rmx(key) => WordsBytes(RmxDecryptAll(Words(bytes), RmxStart(key)))
    case Sub(key) => WordsBytes(SubAll(Words(bytes), key))
  }

  function TeaBlock(p: seq<Byte>, key: Key): (r: seq<Byte>)
    requires |p| == 8
    ensures |r| == 8
  {
    var b := Encrypt(Block(WordOf(p[..4]), WordOf(p[4..])), 32, key);
    BytesOf(b.v0) + BytesOf(b.v1)
  }

  function TeaAll(plain: seq<Byte>, key: Key): seq<Byte> {
    if |plain| < 8 then [] else TeaBlock(plain[..8], key) + TeaAll(plain[8..], key)
  }

  /** The stream that was encrypted. */
  function Ciphertext(c: Cipher, plain: seq<Byte>): seq<Byte> {
    match c
    case Tea(key) => TeaAll(plain, key)
    case Rmx(key) => WordsBytes(RmxEncryptAll(Words(plain), RmxStart(key)))
    case Sub(key) => WordsBytes(SubAll(Words(plain), key))
  }

  lemma {:induction false} WordsBack(words: seq<Word>)
    ensures Words(WordsBytes(words)) == words && |WordsBytes(words)| == 4 * |words|
  {
    hide WordOf, BytesOf;
    if words != [] {
      WordBytes(words[0]);
      WordsBack(words[1..]);
      assert WordsBytes(words)[..4] == BytesOf(words[0]) && WordsBytes(words)[4..] == WordsBytes(words[1..]);
    }
  }

  lemma {:induction false} BytesBack(bytes: seq<Byte>)
    requires |bytes| % 4 == 0
    ensures WordsBytes(Words(bytes)) == bytes && 4 * |Words(bytes)| == |bytes|
  {
    hide WordOf, BytesOf;
    if bytes != [] {
      BytesWord(bytes[..4]);
      BytesBack(bytes[4..]);
      assert Words(bytes)[1..] == Words(bytes[4..]);
      assert bytes == bytes[..4] + bytes[4..];
    }
  }

  lemma {:induction false} SubTwice(words: seq<Word>, key: Word)
    ensures SubAll(SubAll(words, key), key) == words && |SubAll(words, key)| == |words|
  {
    hide SubDecrypt;
    if words != [] {
      SubUndoes(words[0], key);
      SubTwice(words[1..], key);
      assert SubAll(words, key)[1..] == SubAll(words[1..], key);
    }
  }

  lemma TeaBlockBack(p: seq<Byte>, key: Key)
    requires |p| == 8
    ensures Plain(TeaBlock(p, key), key) == p
  {
    hide WordOf, BytesOf, Encrypt, Decrypt;
    var b := Block(WordOf(p[..4]), WordOf(p[4..]));
    var e := Encrypt(b, 32, key);
    assert TeaBlock(p, key)[..4] == BytesOf(e.v0) && TeaBlock(p, key)[4..] == BytesOf(e.v1);
    WordBytes(e.v0);
    WordBytes(e.v1);
    DecryptUndoes(b, 32, key);
    BytesWord(p[..4]);
    BytesWord(p[4..]);
    assert p == p[..4] + p[4..];
  }

  lemma {:induction false} TeaBack(plain: seq<Byte>, key: Key)
    requires |plain| % 8 == 0
    ensures PlainAll(TeaAll(plain, key), key) == plain && |TeaAll(plain, key)| == |plain|
  {
    hide Plain, TeaBlock;
    if plain != [] {
      TeaBlockBack(plain[..8], key);
      TeaBack(plain[8..], key);
      var c := TeaAll(plain, key);
      assert c[..8] == TeaBlock(plain[..8], key) && c[8..] == TeaAll(plain[8..], key);
      assert plain == plain[..8] + plain[8..];
    }
  }

  lemma {:induction false} RmxLength(words: seq<Word>, s: Rotating)
    ensures |RmxEncryptAll(words, s)| == |words|
  {
    hide RmxEncrypt;
    if words != [] { RmxLength(words[1..], RmxEncrypt(words[0], s).1); }
  }

  /** With every cipher and key, what was encrypted comes back. */
  lemma StreamRoundTrip(c: Cipher, plain: seq<Byte>)
    requires |plain| % BlockSize(c) == 0
    ensures Plaintext(c, Ciphertext(c, plain)) == plain && |Ciphertext(c, plain)| == |plain|
  {
    hide Words, WordsBytes, RmxEncryptAll, RmxDecryptAll, SubAll, PlainAll, TeaAll;
    match c
    case Tea(key) => TeaBack(plain, key);
    case Rmx(key) =>
      BytesBack(plain);
      RmxLength(Words(plain), RmxStart(key));
      RmxUndoes(Words(plain), RmxStart(key));
      WordsBack(RmxEncryptAll(Words(plain), RmxStart(key)));
    case Sub(key) =>
      BytesBack(plain);
      SubTwice(Words(plain), key);
      WordsBack(SubAll(Words(plain), key));
  }

  /** Writes decrypted bytes over the encrypted ones. */
  method Overwrite(output: array<Byte>, at: nat, bytes: seq<Byte>)
    requires at + |bytes| <= output.Length
    modifies output
    ensures output[..] == old(output[..at]) + bytes + old(output[at + |bytes|..])
  {
    var i: nat := 0;
    while i < |bytes|
      invariant i <= |bytes| && forall j :: 0 <= j < i ==> output[at + j] == bytes[j]
      invariant forall j :: 0 <= j < output.Length && !(at <= j < at + i) ==> output[j] == old(output[j])
    {
      output[at + i] := bytes[i];
      i := i + 1;
    }
    assert output[at..at + i] == bytes && output[..] == output[..at] + output[at..at + i] + output[at + i..];
  }

  lemma TeaStep(done: seq<Byte>, rest: seq<Byte>, key: Key)
    requires |rest| >= 8
    ensures PlainAll(rest, key) == Plain(rest[..8], key) + PlainAll(rest[8..], key)
    ensures done + PlainAll(rest, key) == (done + Plain(rest[..8], key)) + PlainAll(rest[8..], key)
  {
    hide Plain;
  }

  method TeaInPlace(output: array<Byte>, key: Key)
    requires output.Length % 8 == 0
    modifies output
    ensures output[..] == PlainAll(old(output[..]), key)
  {
    hide Plain, PlainAll;
    ghost var was := output[..];
    var offset: nat := 0;
    assert was[0..] == was && output[..0] == [];
    while offset < output.Length
      invariant offset <= output.Length && offset % 8 == 0 && output[offset..] == was[offset..]
      invariant output[..offset] + PlainAll(was[offset..], key) == PlainAll(was, key)
    {
      ghost var done, rest := output[..offset], was[offset..];
      assert output[offset..offset + 8] == output[offset..][..8];
      var block := DecryptBlock(output[offset..offset + 8], key);
      TeaStep(done, rest, key);
      Overwrite(output, offset, block);
      assert output[..offset + 8] == output[..][..offset + 8] == done + block;
      assert rest[8..] == was[offset + 8..] == output[..][offset + 8..];
      offset := offset + 8;
    }
    NothingLeft(was[offset..], key);
    assert output[..offset] == output[..];
  }

  lemma NothingLeft(rest: seq<Byte>, key: Key)
    requires rest == []
    ensures PlainAll(rest, key) == [] && Words(rest) == [] && WordsBytes([]) == []
  {
  }

  lemma FirstWord(rest: seq<Byte>)
    requires |rest| >= 4
    ensures Words(rest) == [WordOf(rest[..4])] + Words(rest[4..])
  {
    hide WordOf;
  }

  lemma FirstBytes(done: seq<Byte>, w: Word, words: seq<Word>)
    ensures done + WordsBytes([w] + words) == (done + BytesOf(w)) + WordsBytes(words)
  {
    hide BytesOf;
    assert ([w] + words)[1..] == words;
  }

  lemma FirstRmx(w: Word, words: seq<Word>, s: Rotating)
    ensures var (p, s') := RmxDecrypt(w, s); RmxDecryptAll([w] + words, s) == [p] + RmxDecryptAll(words, s')
  {
    hide RmxDecrypt;
    assert ([w] + words)[1..] == words;
  }

  lemma FirstSub(w: Word, words: seq<Word>, key: Word)
    ensures SubAll([w] + words, key) == [SubDecrypt(w, key)] + SubAll(words, key)
  {
    hide SubDecrypt;
    assert ([w] + words)[1..] == words;
  }

  lemma RmxWord(done: seq<Byte>, rest: seq<Byte>, s: Rotating)
    requires |rest| >= 4
    ensures var (p, s') := RmxDecrypt(WordOf(rest[..4]), s);
            done + WordsBytes(RmxDecryptAll(Words(rest), s)) == (done + BytesOf(p)) + WordsBytes(RmxDecryptAll(Words(rest[4..]), s'))
  {
    hide *;
    var (p, s') := RmxDecrypt(WordOf(rest[..4]), s);
    FirstWord(rest);
    FirstRmx(WordOf(rest[..4]), Words(rest[4..]), s);
    FirstBytes(done, p, RmxDecryptAll(Words(rest[4..]), s'));
  }

  method RmxInPlace(output: array<Byte>, key: Word)
    requires output.Length % 4 == 0
    modifies output
    ensures output[..] == WordsBytes(RmxDecryptAll(Words(old(output[..])), RmxStart(key)))
  {
    hide WordOf, BytesOf, Words, WordsBytes, RmxDecryptAll, RmxDecrypt;
    ghost var was := output[..];
    var s := RmxStart(key);
    var offset: nat := 0;
    assert was[0..] == was && output[..0] == [];
    while offset < output.Length
      invariant offset <= output.Length && offset % 4 == 0 && output[offset..] == was[offset..]
      invariant output[..offset] + WordsBytes(RmxDecryptAll(Words(was[offset..]), s)) == WordsBytes(RmxDecryptAll(Words(was), RmxStart(key)))
    {
      ghost var done, rest := output[..offset], was[offset..];
      assert output[offset..offset + 4] == output[offset..][..4];
      var (p, next) := RmxDecrypt(WordOf(output[offset..offset + 4]), s);
      RmxWord(done, rest, s);
      Overwrite(output, offset, BytesOf(p));
      assert output[..offset + 4] == output[..][..offset + 4] == done + BytesOf(p);
      assert rest[4..] == was[offset + 4..] == output[..][offset + 4..];
      s := next;
      offset := offset + 4;
    }
    NoWords(was[offset..], s);
    assert output[..offset] == output[..];
  }

  lemma NoWords(rest: seq<Byte>, s: Rotating)
    requires rest == []
    ensures WordsBytes(RmxDecryptAll(Words(rest), s)) == [] && forall key :: WordsBytes(SubAll(Words(rest), key)) == []
  {
  }

  lemma SubWord(done: seq<Byte>, rest: seq<Byte>, key: Word)
    requires |rest| >= 4
    ensures done + WordsBytes(SubAll(Words(rest), key))
      == (done + BytesOf(SubDecrypt(WordOf(rest[..4]), key))) + WordsBytes(SubAll(Words(rest[4..]), key))
  {
    hide *;
    FirstWord(rest);
    FirstSub(WordOf(rest[..4]), Words(rest[4..]), key);
    FirstBytes(done, SubDecrypt(WordOf(rest[..4]), key), SubAll(Words(rest[4..]), key));
  }

  method SubInPlace(output: array<Byte>, key: Word)
    requires output.Length % 4 == 0
    modifies output
    ensures output[..] == WordsBytes(SubAll(Words(old(output[..])), key))
  {
    hide WordOf, BytesOf, Words, WordsBytes, SubAll, SubDecrypt;
    ghost var was := output[..];
    var offset: nat := 0;
    assert was[0..] == was && output[..0] == [];
    while offset < output.Length
      invariant offset <= output.Length && offset % 4 == 0 && output[offset..] == was[offset..]
      invariant output[..offset] + WordsBytes(SubAll(Words(was[offset..]), key)) == WordsBytes(SubAll(Words(was), key))
    {
      ghost var done, rest := output[..offset], was[offset..];
      assert output[offset..offset + 4] == output[offset..][..4];
      var p := SubDecrypt(WordOf(output[offset..offset + 4]), key);
      SubWord(done, rest, key);
      Overwrite(output, offset, BytesOf(p));
      assert output[..offset + 4] == output[..][..offset + 4] == done + BytesOf(p);
      assert rest[4..] == was[offset + 4..] == output[..][offset + 4..];
      offset := offset + 4;
    }
    NoWords(was[offset..], RmxStart(key));
    assert output[..offset] == output[..];
  }

  /** Streams whose plain text is known, with each cipher. */
  lemma TeaStreamVector()
    ensures Plaintext(Tea(Key(0x00112233, 0x44556677, 0x8899AABB, 0xCCDDEEFF)),
                      [0x92, 0x6B, 0x6C, 0x12, 0x3E, 0x3A, 0x65, 0xC0]) == [0x67, 0x45, 0x23, 0x01, 0xEF, 0xCD, 0xAB, 0x89]
  {
    hide Decrypt, WordOf, BytesOf;
    var key := Key(0x00112233, 0x44556677, 0x8899AABB, 0xCCDDEEFF);
    var bytes: seq<Byte> := [0x92, 0x6B, 0x6C, 0x12, 0x3E, 0x3A, 0x65, 0xC0];
    FourKeyVector();
    WordVectors();
    assert bytes[..4] == [0x92, 0x6B, 0x6C, 0x12] && bytes[4..] == [0x3E, 0x3A, 0x65, 0xC0];
    assert bytes[..8] == bytes && bytes[8..] == [];
    NothingLeft([], key);
  }

  lemma WordVectors()
    ensures WordOf([0x92, 0x6B, 0x6C, 0x12]) == 0x126C6B92 && WordOf([0x3E, 0x3A, 0x65, 0xC0]) == 0xC0653A3E
    ensures BytesOf(0x01234567) == [0x67, 0x45, 0x23, 0x01] && BytesOf(0x89ABCDEF) == [0xEF, 0xCD, 0xAB, 0x89]
  {
  }

  lemma RmxVector()
    ensures RmxDecryptAll([0x0C83F4DC, 0x7F6DD1E0, 0xB5A778DF], RmxStart(0x89ABCDE5)) == [0x01234567, 0xDEADBEE2, 0x13579BDF]
  {
    hide RotateLeft;
    RotateVectors();
    assert RmxDecrypt(0x0C83F4DC, RmxStart(0x89ABCDE5)) == (0x01234567, Rotating(0x3579BCB1, 0xFEDCBA9D));
    assert RmxDecrypt(0x7F6DD1E0, Rotating(0x3579BCB1, 0xFEDCBA9D)) == (0xDEADBEE2, Rotating(0x26AF3796, 0xDF8EFB80));
    assert RmxDecrypt(0xB5A778DF, Rotating(0x26AF3796, 0xDF8EFB80)) == (0x13579BDF, Rotating(0x26AF3796, 0x33269FA0));
    hide RmxDecrypt, RmxStart;
    FirstRmx(0xB5A778DF, [], Rotating(0x26AF3796, 0xDF8EFB80));
    FirstRmx(0x7F6DD1E0, [0xB5A778DF], Rotating(0x3579BCB1, 0xFEDCBA9D));
    FirstRmx(0x0C83F4DC, [0x7F6DD1E0, 0xB5A778DF], RmxStart(0x89ABCDE5));
  }

  lemma SubVector()
    ensures SubAll([0x0C83F4DC, 0xB5A778DF], 0x89ABCDE5) == [0x7D27D909, 0xD4045506]
  {
    assert SubDecrypt(0x0C83F4DC, 0x89ABCDE5) == 0x7D27D909 && SubDecrypt(0xB5A778DF, 0x89ABCDE5) == 0xD4045506;
    FirstSub(0xB5A778DF, [], 0x89ABCDE5);
    FirstSub(0x0C83F4DC, [0xB5A778DF], 0x89ABCDE5);
  }

  /** `decrypt_stream`: whole blocks in a copy of the ciphertext; none when it is too short. */
  method DecryptStream(c: Cipher, ciphertext: seq<Byte>, streamSize: nat) returns (plain: Option<seq<Byte>>)
    ensures plain.None? <==> |ciphertext| < Rounded(streamSize, BlockSize(c))
    ensures plain.Some? ==> plain.value == Plaintext(c, ciphertext[..Rounded(streamSize, BlockSize(c))])
    ensures forall p: seq<Byte>, more: seq<Byte> :: |p| == Rounded(streamSize, BlockSize(c)) && ciphertext == Ciphertext(c, p) + more ==>
      plain == Some(p)
  {
    hide Plaintext, Ciphertext, Rounded;
    var size := Rounded(streamSize, BlockSize(c));
    RoundedIs(streamSize, c);
    forall p: seq<Byte>, more: seq<Byte> | |p| == size && ciphertext == Ciphertext(c, p) + more
      ensures size <= |ciphertext| && Plaintext(c, ciphertext[..size]) == p
    {
      StreamRoundTrip(c, p);
      assert ciphertext[..size] == Ciphertext(c, p);
    }
    if |ciphertext| < size { return None; }
    var output := new Byte[size](i requires 0 <= i < size => ciphertext[i]);
    assert output[..] == ciphertext[..size];
    match c {
      case Tea(key) => TeaInPlace(output, key);
      case Rmx(key) => RmxInPlace(output, key);
      case Sub(key) => SubInPlace(output, key);
    }
    PlaintextIs(c, ciphertext[..size]);
    plain := Some(output[..]);
  }

  lemma PlaintextIs(c: Cipher, bytes: seq<Byte>)
    ensures c.Tea? ==> Plaintext(c, bytes) == PlainAll(bytes, c.key)
    ensures c.Rmx? ==> Plaintext(c, bytes) == WordsBytes(RmxDecryptAll(Words(bytes), RmxStart(c.word)))
    ensures c.Sub? ==> Plaintext(c, bytes) == WordsBytes(SubAll(Words(bytes), c.word))
  {
  }
}
