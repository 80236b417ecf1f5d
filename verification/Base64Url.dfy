/**
 * The hand-written base64url codec of the cursor (RFC 4648 section 5, unpadded as section 3.2 allows).
 * The two loops of the source are methods; each is proved equal to a definition over unbounded bit
 * strings, and the round trip is proved of those definitions.
 */
module Base64Url {
  import opened Collections
  import opened Wrappers
  import opened Arithmetic
  import opened Texts
  import opened Bits
  import opened Int32

  predicate Octets(t: Text) {
    forall i :: 0 <= i < |t| ==> t[i] < 256
  }

  /** The alphabet, table 2 of RFC 4648: A-Z, a-z, 0-9, '-' and '_'. */
  function Letter(v: nat): (u: Unit)
    requires v < 64
  {
    if v < 26 then v + 65 else if v < 52 then v + 71 else if v < 62 then v - 4 else if v == 62 then 45 else 95
  }

  /** The index of a character in the alphabet, if it has one. */
  function Code(u: Unit): (v: Option<nat>)
    ensures v.Some? ==> v.value < 64 && Letter(v.value) == u
  {
    if 65 <= u <= 90 then Some(u - 65)
    else if 97 <= u <= 122 then Some(u - 71)
    else if 48 <= u <= 57 then Some(u + 4)
    else if u == 45 then Some(62)
    else if u == 95 then Some(63)
    else None
  }

  lemma CodeOfLetter(v: nat)
    requires v < 64
    ensures Code(Letter(v)) == Some(v)
  {}

  // ---- The definitions over bit strings ----

  predicate Sextets(values: seq<nat>) {
    forall i :: 0 <= i < |values| ==> values[i] < 64
  }

  function Letters(values: seq<nat>): (t: Text)
    requires Sextets(values)
    ensures |t| == |values| && forall i :: 0 <= i < |t| ==> t[i] == Letter(values[i])
  {
    seq(|values|, i requires 0 <= i < |values| => Letter(values[i]))
  }

  /** Every character's code, or None as soon as one is not in the alphabet. */
  function Codes(t: Text): (values: Option<seq<nat>>)
    ensures values.Some? ==> |values.value| == |t| && Sextets(values.value)
    ensures values.None? <==> exists i :: 0 <= i < |t| && Code(t[i]).None?
  {
    if t == [] then Some([])
    else
      var last := |t| - 1;
      match (Codes(t[..last]), Code(t[last]))
      case (Some(before), Some(v)) => Some(before + [v])
      case _ => None
  }

  /** How many zero bits complete the last group of six. */
  function Padding(octets: nat): (zeros: nat)
    ensures zeros < 6
  {
    if octets % 3 == 0 then 0 else if octets % 3 == 1 then 4 else 2
  }

  lemma PaddingCompletes(octets: nat)
    ensures (8 * octets + Padding(octets)) % 6 == 0
  {
    var whole, left := octets / 3, octets % 3;
    assert octets == 3 * whole + left;
    SixesOf(8 * octets + Padding(octets), 4 * whole + (if left == 0 then 0 else left + 1));
  }

  lemma SixesOf(n: nat, sixes: nat)
    requires n == 6 * sixes
    ensures n % 6 == 0
  {}

  lemma {:induction false} SpellLength(values: seq<nat>)
    ensures |Spell(values, 6)| == 6 * |values| && |Spell(values, 8)| == 8 * |values|
  {
    if values != [] {
      SpellLength(values[1..]);
    }
  }

  function PaddedBits(octets: Text): (bits: seq<bool>)
    ensures |bits| % 6 == 0
  {
    SpellLength(octets);
    PaddingCompletes(|octets|);
    Spell(octets, 8) + Zeros(Padding(|octets|))
  }

  function Encoded(octets: Text): (t: Text) {
    Powers();
    Letters(Group(PaddedBits(octets), 6))
  }

  /** The octets complete in a run of sextets; at most seven bits are left over and ignored. */
  function Assembled(values: seq<nat>): (octets: Text)
    ensures Octets(octets)
  {
    Powers();
    var groups := Group(Spell(values, 6), 8);
    groups
  }

  function Decoded(t: Text): (octets: Option<Text>) {
    match Codes(t)
    case None => None
    case Some(values) => Some(Assembled(values))
  }

  lemma {:induction false} CodesOfLetters(values: seq<nat>)
    requires Sextets(values)
    ensures Codes(Letters(values)) == Some(values)
  {
    hide Letters;
    if values != [] {
      var last := |values| - 1;
      assert Letters(values)[..last] == Letters(values[..last]);
      CodesOfLetters(values[..last]);
      assert values == values[..last] + [values[last]];
    }
  }

  lemma {:induction false} SixesAreWhole(n: nat)
    requires n % 6 == 0
    ensures Whole(n, 6)
  {
    if n > 0 {
      SixesAreWhole(n - 6);
    }
  }

  /** Decoding undoes encoding, for every string of 8-bit codes and every length modulo three. */
  lemma RoundTrip(octets: Text)
    requires Octets(octets)
    ensures Decoded(Encoded(octets)) == Some(octets)
  {
    Powers();
    var bits := PaddedBits(octets);
    CodesOfLetters(Group(bits, 6));
    SixesAreWhole(|bits|);
    SpellGroup(bits, 6);
    GroupSpell(octets, Zeros(Padding(|octets|)), 8);
  }

  /** The encoded length: no padding characters, ceil(4n/3) letters, all of the alphabet. */
  lemma EncodedShape(octets: Text)
    ensures |Encoded(octets)| == (4 * |octets| + 2) / 3
    ensures forall i :: 0 <= i < |Encoded(octets)| ==> Code(Encoded(octets)[i]).Some?
  {
    Powers();
    var bits := PaddedBits(octets);
    var values := Group(bits, 6);
    SixesAreWhole(|bits|);
    SpellGroup(bits, 6);
    SpellLength(values);
    SpellLength(octets);
    forall i | 0 <= i < |values| ensures Code(Encoded(octets)[i]).Some? {
      CodeOfLetter(values[i]);
    }
  }

  /** The bits no octet takes. */
  function LeftOver(values: seq<nat>): (bits: seq<bool>)
    ensures |bits| < 8
  {
    GroupTail(Spell(values, 6), 8);
    Spell(values, 6)[|Spell(Assembled(values), 8)|..]
  }

  /**
   * Exactly which decodable texts the encoder could have produced: those whose left-over bits are fewer
   * than six and all zero. Any other text decodes too, but encodes back to something else.
   */
  lemma CanonicalTexts(t: Text)
    requires Codes(t).Some?
    ensures var tail := LeftOver(Codes(t).value);
      Encoded(Assembled(Codes(t).value)) == t <==> |tail| < 6 && forall i :: 0 <= i < |tail| ==> !tail[i]
  {
    var values := Codes(t).value;
    var octets, tail := Assembled(values), LeftOver(values);
    LeftOverSplits(values);
    LettersOfCodes(t);
    if |tail| < 6 && forall i :: 0 <= i < |tail| ==> !tail[i] {
      CanonicalEncodes(values, octets, tail);
    }
    if Encoded(octets) == t {
      CanonicalOnly(values, octets);
      SameTail(Spell(octets, 8), tail, Zeros(Padding(|octets|)));
    }
  }

  lemma SameTail(head: seq<bool>, a: seq<bool>, b: seq<bool>)
    requires head + a == head + b
    ensures a == b
  {
    assert (head + a)[|head|..] == a && (head + b)[|head|..] == b;
  }

  lemma PaddingIsUnique(octets: nat, zeros: nat)
    requires zeros < 6 && (8 * octets + zeros) % 6 == 0
    ensures zeros == Padding(octets)
  {
    var q, r := octets / 3, octets % 3;
    assert 8 * octets + zeros == 6 * (4 * q + r) + (2 * r + zeros);
    assert (2 * r + zeros) % 6 == 0;
  }

  lemma CanonicalEncodes(values: seq<nat>, octets: Text, tail: seq<bool>)
    requires Sextets(values) && Spell(values, 6) == Spell(octets, 8) + tail
    requires |tail| < 6 && forall i :: 0 <= i < |tail| ==> !tail[i]
    ensures Encoded(octets) == Letters(values)
  {
    CanonicalPadding(values, octets, tail);
    GroupsOfSpelled(values);
  }

  lemma CanonicalPadding(values: seq<nat>, octets: Text, tail: seq<bool>)
    requires Spell(values, 6) == Spell(octets, 8) + tail
    requires |tail| < 6 && forall i :: 0 <= i < |tail| ==> !tail[i]
    ensures PaddedBits(octets) == Spell(values, 6)
  {
    hide Spell, Padding;
    SpellLength(values);
    SpellLength(octets);
    PaddingIsUnique(|octets|, |tail|);
    assert tail == Zeros(Padding(|octets|));
  }

  lemma GroupsOfSpelled(values: seq<nat>)
    requires Sextets(values)
    ensures Group(Spell(values, 6), 6) == values
  {
    WidthPowers();
    assert Spell(values, 6) + [] == Spell(values, 6);
    GroupSpell(values, [], 6);
  }

  lemma CanonicalOnly(values: seq<nat>, octets: Text)
    requires Sextets(values) && Encoded(octets) == Letters(values)
    ensures Spell(values, 6) == PaddedBits(octets)
  {
    Powers();
    var groups := Group(PaddedBits(octets), 6);
    CodesOfLetters(groups);
    CodesOfLetters(values);
    SixesAreWhole(|PaddedBits(octets)|);
    SpellGroup(PaddedBits(octets), 6);
  }

  lemma {:induction false} LettersOfCodes(t: Text)
    requires Codes(t).Some?
    ensures Letters(Codes(t).value) == t
  {
    if t != [] {
      var last := |t| - 1;
      LettersOfCodes(t[..last]);
      assert Letters(Codes(t[..last]).value + [Code(t[last]).value]) == Letters(Codes(t[..last]).value) + [t[last]];
    }
  }

  // ---- The encoder's loop ----

  /** The 24 bits of three octets, and the number they denote. */
  lemma ChunkBits(f: nat, s: nat, t: nat)
    requires f < 256 && s < 256 && t < 256
    ensures Spell([f, s, t], 8) == BitsOf(f, 8) + BitsOf(s, 8) + BitsOf(t, 8)
    ensures Value(Spell([f, s, t], 8)) == f * 0x1_0000 + s * 0x100 + t
  {
    Powers();
    SpellAppend([f, s], [t], 8);
    SpellAppend([f], [s], 8);
    assert [f, s] + [t] == [f, s, t] && [f] + [s] == [f, s];
    assert Spell([f], 8) == BitsOf(f, 8) && Spell([s], 8) == BitsOf(s, 8) && Spell([t], 8) == BitsOf(t, 8);
    ValueOfBits(f, 8);
    ValueOfBits(s, 8);
    ValueOfBits(t, 8);
    ValueAppend(BitsOf(f, 8), BitsOf(s, 8));
    ValueAppend(BitsOf(f, 8) + BitsOf(s, 8), BitsOf(t, 8));
  }

  function Chunk(f: nat, s: nat, t: nat): int {
    Or(Or(ShiftLeft(f, 16), ShiftLeft(s, 8)), t)
  }

  lemma ChunkIsSum(f: nat, s: nat, t: nat)
    requires f < 256 && s < 256 && t < 256
    ensures Chunk(f, s, t) == f * 0x1_0000 + s * 0x100 + t
  {
    Powers();
    ShiftLeftIs(f, 16, 0x1_0000);
    ShiftLeftIs(s, 8, 0x100);
    var high, middle := f * 0x1_0000, s * 0x100;
    assert high % 0x1_0000 == 0 && (high + middle) % 0x100 == 0;
    OrFillsLowBits(high, middle, 16);
    OrFillsLowBits(high + middle, t, 8);
  }

  /** The k-th sextet of a chunk, as the source shifts and masks it out. */
  function Sextet(chunk: int, k: nat): (v: nat)
    requires k < 4
    ensures v < 64
  {
    Powers();
    AndMask(ShiftRight(chunk, 18 - 6 * k), 6);
    And(ShiftRight(chunk, 18 - 6 * k), 63)
  }

  lemma SextetIsSlice(bits: seq<bool>, k: nat)
    requires |bits| == 24 && k < 4
    ensures Sextet(Value(bits), k) == Value(bits[6 * k..6 * k + 6])
  {
    Powers();
    AndMask(ShiftRight(Value(bits), 18 - 6 * k), 6);
    ValueSlice(bits, 6 * k, 6 * k + 6);
  }

  lemma GroupSixes(bits: seq<bool>, count: nat)
    requires |bits| == 24 && 2 <= count <= 4
    ensures Group(bits[..6 * count], 6) == [Value(bits[..6]), Value(bits[6..12])]
      + (if count > 2 then [Value(bits[12..18])] else []) + (if count > 3 then [Value(bits[18..24])] else [])
  {
    hide Value, Pow2;
    if count == 2 {
      GroupLast(bits, 1);
      GroupLast(bits, 2);
    } else {
      GroupSixes(bits, count - 1);
      GroupLast(bits, count);
    }
  }

  lemma GroupLast(bits: seq<bool>, k: nat)
    requires 1 <= k && 6 * k <= |bits|
    ensures Group(bits[..6 * k], 6) == Group(bits[..6 * (k - 1)], 6) + [Value(bits[6 * (k - 1)..6 * k])]
  {
    var head, next := bits[..6 * (k - 1)], bits[6 * (k - 1)..6 * k];
    SixesAreWhole(6 * (k - 1));
    assert bits[..6 * k] == head + next;
    GroupAppend(head, next, 6);
    assert next[..6] == next && next[6..] == [];
  }

  /** The first |block| + 1 letters of a chunk: what one turn of the loop appends. */
  function TurnLetters(chunk: int, length: nat): Text {
    [Letter(Sextet(chunk, 0)), Letter(Sextet(chunk, 1))]
    + (if length > 1 then [Letter(Sextet(chunk, 2))] else []) + (if length > 2 then [Letter(Sextet(chunk, 3))] else [])
  }

  lemma BlockBits(block: Text, s: nat, t: nat)
    requires 1 <= |block| <= 3
    requires s == if |block| > 1 then block[1] else 0
    requires t == if |block| > 2 then block[2] else 0
    ensures |Spell([block[0], s, t], 8)| == 24
    ensures PaddedBits(block) == Spell([block[0], s, t], 8)[..6 * (|block| + 1)]
  {
    BitsOfZero(8);
    SpellLength(block);
    SpellLength([block[0], s, t]);
    var rest := [block[0], s, t][|block|..];
    assert [block[0], s, t] == block + rest;
    SpellAppend(block, rest, 8);
    if |block| == 1 {
      assert rest == [0, 0];
    } else if |block| == 2 {
      assert rest == [0];
    }
  }

  lemma ChunkSextets(bits: seq<bool>, count: nat)
    requires |bits| == 24 && 2 <= count <= 4
    ensures Sextets(Group(bits[..6 * count], 6))
    ensures Letters(Group(bits[..6 * count], 6)) == TurnLetters(Value(bits), count - 1)
  {
    hide Group, Pow2, Value, ShiftRight, Sextet;
    GroupSixes(bits, count);
    SextetIsSlice(bits, 0);
    SextetIsSlice(bits, 1);
    SextetIsSlice(bits, 2);
    SextetIsSlice(bits, 3);
  }

  lemma BlockLetters(block: Text, s: nat, t: nat)
    requires 1 <= |block| <= 3 && Octets(block)
    requires s == if |block| > 1 then block[1] else 0
    requires t == if |block| > 2 then block[2] else 0
    ensures Encoded(block) == TurnLetters(Chunk(block[0], s, t), |block|)
  {
    hide Pow2, Value, TurnLetters, Letters, PaddedBits;
    ChunkBits(block[0], s, t);
    ChunkIsSum(block[0], s, t);
    BlockBits(block, s, t);
    ChunkSextets(Spell([block[0], s, t], 8), |block| + 1);
  }

  lemma EncodedAppend(done: Text, block: Text)
    requires |done| % 3 == 0
    ensures Encoded(done + block) == Encoded(done) + Encoded(block)
  {
    PaddedAppend(done, block);
    SixesAreWhole(|PaddedBits(done)|);
    GroupAppend(PaddedBits(done), PaddedBits(block), 6);
    LettersAppend(Group(PaddedBits(done), 6), Group(PaddedBits(block), 6));
  }

  lemma PaddedAppend(done: Text, block: Text)
    requires |done| % 3 == 0
    ensures |PaddedBits(done)| % 6 == 0
    ensures PaddedBits(done + block) == PaddedBits(done) + PaddedBits(block)
  {
    hide Spell, Zeros;
    SpellAppend(done, block, 8);
    SpellLength(done);
    assert Zeros(0) == [];
    AppendAssociates(Spell(done, 8), Spell(block, 8), Zeros(Padding(|block|)));
  }

  lemma LettersAppend(a: seq<nat>, b: seq<nat>)
    requires Sextets(a) && Sextets(b)
    ensures Letters(a + b) == Letters(a) + Letters(b)
  {}

  /** One turn of the loop, from a multiple of three on. */
  lemma EncoderTurn(ascii: Text, turns: nat, i: nat, next: nat, second: nat, third: nat)
    requires Octets(ascii) && i == 3 * turns && i < next <= |ascii| && next == (if i + 3 < |ascii| then i + 3 else |ascii|)
    requires second == if i + 1 < |ascii| then ascii[i + 1] else 0
    requires third == if i + 2 < |ascii| then ascii[i + 2] else 0
    ensures Encoded(ascii[..next]) == Encoded(ascii[..i]) + TurnLetters(Chunk(ascii[i], second, third), |ascii| - i)
  {
    var block := ascii[i..next];
    assert ascii[..next] == ascii[..i] + block;
    EncodedAppend(ascii[..i], block);
    BlockLetters(block, second, third);
  }

  // ---- What it writes, letter by letter ----

  /** The alphabet by its ranges, as RFC 4648 lists it in table 2. */
  function AlphabetAt(v: nat): char
    requires v < 64
  {
    if v < 26 then 'A' + v as char
    else if v < 52 then 'a' + (v - 26) as char
    else if v < 62 then '0' + (v - 52) as char
    else if v == 62 then '-'
    else '_'
  }

  lemma LettersAreTheAlphabet(v: nat)
    requires v < 64
    ensures Letter(v) == AlphabetAt(v) as int
  {}

  /** The four sextets of three octets, the missing ones taken as zero. */
  function SextetsOf(f: nat, s: nat, t: nat): (r: seq<nat>)
    requires f < 256 && s < 256 && t < 256
    ensures |r| == 4
  {
    [f / 4, f % 4 * 16 + s / 16, s % 16 * 4 + t / 64, t % 64]
  }

  lemma SextetIsDigit(chunk: nat, k: nat, p: nat)
    requires k < 4 && p == Pow2(18 - 6 * k)
    ensures Sextet(chunk, k) == chunk / p % 64
  {
    Powers();
    AndMask(ShiftRight(chunk, 18 - 6 * k), 6);
  }

  lemma SextetsAreDigits(chunk: nat)
    ensures Sextet(chunk, 0) == chunk / 0x4_0000 % 64 && Sextet(chunk, 1) == chunk / 0x1000 % 64
    ensures Sextet(chunk, 2) == chunk / 0x40 % 64 && Sextet(chunk, 3) == chunk % 64
  {
    hide Sextet, Pow2;
    Powers();
    assert Pow2(0) == 1 by { PowOfNone(); }
    SextetIsDigit(chunk, 0, 0x4_0000);
    SextetIsDigit(chunk, 1, 0x1000);
    SextetIsDigit(chunk, 2, 0x40);
    SextetIsDigit(chunk, 3, 1);
  }

  lemma PowOfNone()
    ensures Pow2(0) == 1
  {}

  lemma TopDigits(f: nat, s: nat, t: nat)
    requires f < 256 && s < 256 && t < 256
    ensures var c := f * 0x1_0000 + s * 0x100 + t;
      c / 0x4_0000 % 64 == f / 4 && c / 0x1000 % 64 == f % 4 * 16 + s / 16
  {
    var c := f * 0x1_0000 + s * 0x100 + t;
    DivModUnique(c, 0x4_0000, f / 4, f % 4 * 0x1_0000 + s * 0x100 + t);
    DivModUnique(c, 0x1000, f * 16 + s / 16, s % 16 * 0x100 + t);
    DivModUnique(f * 16 + s / 16, 64, f / 4, f % 4 * 16 + s / 16);
  }

  lemma LowDigits(f: nat, s: nat, t: nat)
    requires f < 256 && s < 256 && t < 256
    ensures var c := f * 0x1_0000 + s * 0x100 + t;
      c / 0x40 % 64 == s % 16 * 4 + t / 64 && c % 64 == t % 64
  {
    var c := f * 0x1_0000 + s * 0x100 + t;
    var q := f * 0x400 + s * 4 + t / 64;
    DivModUnique(c, 0x40, q, t % 64);
    DivModUnique(q, 64, f * 16 + s / 16, s % 16 * 4 + t / 64);
  }

  /** The letters of a block of one, two or three octets. */
  predicate IsBlock(letters: Text, block: Text)
    requires Octets(block) && 1 <= |block| <= 3
  {
    var sextets := SextetsOf(block[0], if |block| > 1 then block[1] else 0, if |block| > 2 then block[2] else 0);
    && |letters| == |block| + 1
    && forall k :: 0 <= k < |letters| ==> 0 <= sextets[k] < 64 && letters[k] == AlphabetAt(sextets[k]) as int
  }

  lemma LetterOfSextet(f: nat, s: nat, u: nat, k: nat)
    requires f < 256 && s < 256 && u < 256 && k < 4
    ensures SextetsOf(f, s, u)[k] < 64
    ensures Letter(Sextet(Chunk(f, s, u), k)) == AlphabetAt(SextetsOf(f, s, u)[k]) as int
  {
    hide Pow2, Sextet, Chunk, Letter, AlphabetAt;
    ChunkIsSum(f, s, u);
    SextetsAreDigits(Chunk(f, s, u));
    TopDigits(f, s, u);
    LowDigits(f, s, u);
    LettersAreTheAlphabet(SextetsOf(f, s, u)[k]);
  }

  lemma BlockIsWritten(block: Text)
    requires Octets(block) && 1 <= |block| <= 3
    ensures IsBlock(Encoded(block), block)
  {
    hide Encoded, Sextet, Chunk, Letter, AlphabetAt, SextetsOf;
    var s, u := if |block| > 1 then block[1] else 0, if |block| > 2 then block[2] else 0;
    BlockLetters(block, s, u);
    LetterOfSextet(block[0], s, u, 0);
    LetterOfSextet(block[0], s, u, 1);
    LetterOfSextet(block[0], s, u, 2);
    LetterOfSextet(block[0], s, u, 3);
  }

  /**
   * Three octets after the other become four letters: six bits each from the top, by the alphabet of RFC 4648. One or
   * two octets left at the end become two or three.
   */
  lemma EncodedBlockByBlock(done: Text, block: Text)
    requires Octets(done) && Octets(block) && |done| % 3 == 0 && 1 <= |block| <= 3
    ensures Encoded([]) == [] && IsBlock(Encoded(block), block)
    ensures Encoded(done + block) == Encoded(done) + Encoded(block)
  {
    NothingEncoded();
    BlockIsWritten(block);
    EncodedAppend(done, block);
  }

  lemma NothingEncoded()
    ensures Encoded([]) == []
  {}

  lemma TurnPushes(before: Text, chunk: int, length: nat)
    ensures var two := before + [Letter(Sextet(chunk, 0)), Letter(Sextet(chunk, 1))];
      var three := if length > 1 then two + [Letter(Sextet(chunk, 2))] else two;
      (if length > 2 then three + [Letter(Sextet(chunk, 3))] else three) == before + TurnLetters(chunk, length)
  {}

  method EncodeBase64Url(ascii: Text) returns (out: Text)
    requires Octets(ascii)
    ensures out == Encoded(ascii)
  {
    hide TurnLetters, Sextet, Letter;
    out := [];
    var i := 0;
    ghost var turns := 0;
    while i < |ascii|
      invariant i == 3 * turns && i < |ascii| + 3
      invariant out == Encoded(ascii[..if i < |ascii| then i else |ascii|])
    {
      // A read past the end is NaN in the source, which its chunk replaces by 0.
      var first := ascii[i];
      var second := if i + 1 < |ascii| then ascii[i + 1] else 0;
      var third := if i + 2 < |ascii| then ascii[i + 2] else 0;
      var chunk := Chunk(first, second, third);
      var length := |ascii| - i;
      EncoderTurn(ascii, turns, i, if i + 3 < |ascii| then i + 3 else |ascii|, second, third);
      ghost var before := out;
      out := out + [Letter(Sextet(chunk, 0)), Letter(Sextet(chunk, 1))];
      if length > 1 {
        out := out + [Letter(Sextet(chunk, 2))];
      }
      if length > 2 {
        out := out + [Letter(Sextet(chunk, 3))];
      }
      TurnPushes(before, chunk, length);
      i, turns := i + 3, turns + 1;
    }
    assert ascii[..|ascii|] == ascii;
  }

  // ---- The decoder's loop ----

  lemma WrapTwice(total: nat)
    ensures ToInt32(ToInt32(total) * 64) == ToInt32(total * 64)
  {
    var k := (total - ToInt32(total)) / 0x1_0000_0000;
    ToInt32Periodic(ToInt32(total) * 64, 64 * k);
  }

  /** A multiple of 64 leaves room for a sextet below it, wrapped or not. */
  lemma WrapThenFill(total: nat, value: nat)
    requires value < 64
    ensures ToInt32(total * 64) % 64 == 0
    ensures ToInt32(total * 64) + value == ToInt32(total * 64 + value)
  {
    hide ToInt32;
    var q := total / 0x400_0000;
    var m := total - q * 0x400_0000;
    ToInt32Periodic(64 * m, q);
    ToInt32Periodic(64 * m + value, q);
  }

  /** The wrapped accumulator keeps the low 32 bits of the unbounded one. */
  lemma AccumulatorStep(total: nat, value: nat)
    requires value < 64
    ensures Or(ShiftLeft(ToInt32(total), 6), value) == ToInt32(total * 64 + value)
  {
    Powers();
    WrapTwice(total);
    WrapThenFill(total, value);
    assert ShiftLeft(ToInt32(total), 6) == ToInt32(ToInt32(total) * 64);
    OrFillsLowBits(ToInt32(total * 64), value, 6);
  }

  /** So an octet taken from it is the octet of the unbounded stream. */
  lemma AccumulatorOctet(total: nat, bits: nat)
    requires bits < 8
    ensures And(ShiftRight(ToInt32(total), bits), 0xff) == total / Pow2(bits) % 256
  {
    Powers();
    AndMask(ShiftRight(ToInt32(total), bits), 8);
    PowAdd(2, bits, 32 - bits);
    PowAdd(2, 8, 24 - bits);
    DropWrapped(ToInt32(total), total, (total - ToInt32(total)) / 0x1_0000_0000, Pow2(bits), Pow2(24 - bits));
  }

  lemma DropWrapped(wrapped: int, total: int, k: int, d: int, f: int)
    requires d > 0 && total == wrapped + k * (d * (256 * f))
    ensures total / d % 256 == wrapped / d % 256
  {
    WholeOctets(k, d, f);
    DivShift(wrapped, d, 256 * (k * f));
    SameOctet(wrapped / d, total / d, k * f);
  }

  lemma WholeOctets(k: int, d: int, f: int)
    ensures k * (d * (256 * f)) == d * (256 * (k * f))
  {
    MulRegroups(k, d, 256 * f);
    MulRegroups(k, 256, f);
  }

  lemma SameOctet(x: int, y: int, j: int)
    requires y == x + 256 * j
    ensures y % 256 == x % 256
  {}

  /** One sextet more, and the wrapped accumulator still follows the unbounded stream. */
  lemma StreamGrows(before: seq<nat>, value: nat)
    requires value < 64
    ensures Spell(before + [value], 6) == Spell(before, 6) + BitsOf(value, 6)
    ensures Or(ShiftLeft(ToInt32(Value(Spell(before, 6))), 6), value) == ToInt32(Value(Spell(before + [value], 6)))
  {
    hide Or, BitsOf, Pow, ToInt32;
    Powers();
    SpellAppend(before, [value], 6);
    ValueOfBits(value, 6);
    assert Spell([value], 6) == BitsOf(value, 6);
    ValueAppend(Spell(before, 6), BitsOf(value, 6));
    AccumulatorStep(Value(Spell(before, 6)), value);
  }

  /** What bits after the complete octets add: one octet exactly when there are eight or more of them. */
  lemma TailGroup(octets: seq<nat>, tail: seq<bool>)
    requires |tail| < 16 && forall i :: 0 <= i < |octets| ==> octets[i] < 256
    ensures Group(Spell(octets, 8) + tail, 8) == octets + (if |tail| >= 8 then [Value(tail[..8])] else [])
  {
    hide Spell, Value, Pow;
    Powers();
    WholeSpelled(octets, 8);
    GroupAppend(Spell(octets, 8), tail, 8);
    assert Spell(octets, 8) + [] == Spell(octets, 8);
    GroupSpell(octets, [], 8);
  }

  lemma LeftOverSplits(values: seq<nat>)
    ensures Spell(values, 6) == Spell(Assembled(values), 8) + LeftOver(values)
  {
    GroupTail(Spell(values, 6), 8);
  }

  lemma LeftOverLength(values: seq<nat>)
    ensures |LeftOver(values)| + 8 * |Assembled(values)| == 6 * |values|
  {
    LeftOverSplits(values);
    SpellLength(values);
    SpellLength(Assembled(values));
  }

  /** The stream with one sextet more, cut after the octets that were already complete. */
  lemma SplitStream(before: seq<nat>, value: nat)
    requires value < 64
    ensures Spell(before + [value], 6) == Spell(Assembled(before), 8) + (LeftOver(before) + BitsOf(value, 6))
  {
    LeftOverSplits(before);
    StreamGrows(before, value);
    AppendAssociates(Spell(Assembled(before), 8), LeftOver(before), BitsOf(value, 6));
  }

  lemma NoOctetYet(before: seq<nat>, value: nat, bits: nat)
    requires Sextets(before) && value < 64 && bits < 8
    requires 6 * |before| + 6 == bits + 8 * |Assembled(before)|
    ensures Assembled(before + [value]) == Assembled(before)
  {
    SplitStream(before, value);
    LeftOverLength(before);
    TailGroup(Assembled(before), LeftOver(before) + BitsOf(value, 6));
  }

  lemma OctetReady(before: seq<nat>, value: nat, bits: nat)
    requires Sextets(before) && value < 64 && 8 <= bits < 14
    requires 6 * |before| + 6 == bits + 8 * |Assembled(before)|
    ensures Assembled(before + [value])
         == Assembled(before) + [And(ShiftRight(ToInt32(Value(Spell(before + [value], 6))), bits - 8), 0xff)]
  {
    SplitStream(before, value);
    LeftOverLength(before);
    TailGroup(Assembled(before), LeftOver(before) + BitsOf(value, 6));
    NextOctet(Spell(Assembled(before), 8), LeftOver(before) + BitsOf(value, 6));
  }

  lemma NextOctet(head: seq<bool>, tail: seq<bool>)
    requires 8 <= |tail| < 16
    ensures And(ShiftRight(ToInt32(Value(head + tail)), |tail| - 8), 0xff) == Value(tail[..8])
  {
    Powers();
    var stream := head + tail;
    assert tail[..8] == stream[|head|..|head| + 8];
    ValueSlice(stream, |head|, |head| + 8);
    AccumulatorOctet(Value(stream), |tail| - 8);
  }

  lemma StreamBegins()
    ensures ToInt32(Value(Spell([], 6))) == 0 && Assembled([]) == []
  {}

  method DecodeBase64Url(encoded: Text) returns (r: Option<Text>)
    ensures r == Decoded(encoded)
  {
    hide ShiftLeft, Or, ShiftRight, And, Value, Spell, ToInt32, Assembled, Code;
    StreamBegins();
    var out: Text := [];
    var buffer := 0;
    var bits := 0;
    ghost var values: seq<nat> := [];
    // The source walks code points; a surrogate pair is not in the alphabet either, so units are the same.
    for i := 0 to |encoded|
      invariant Codes(encoded[..i]) == Some(values) && |values| == i
      invariant bits == 6 * i - 8 * |out| && 0 <= bits < 8
      invariant buffer == ToInt32(Value(Spell(values, 6)))
      invariant out == Assembled(values)
    {
      var value := Code(encoded[i]);
      assert encoded[..i + 1][..i] == encoded[..i];
      if value.None? {
        return None;
      }
      StreamGrows(values, value.value);
      buffer := Or(ShiftLeft(buffer, 6), value.value);
      bits := bits + 6;
      if bits >= 8 {
        OctetReady(values, value.value, bits);
        bits := bits - 8;
        out := out + [And(ShiftRight(buffer, bits), 0xff)];
      } else {
        NoOctetYet(values, value.value, bits);
      }
      values := values + [value.value];
    }
    assert encoded[..|encoded|] == encoded;
    return Some(out);
  }
}
