/** The opaque cursor of a page: an insertion sequence and a row id, printed, escaped and base64url-encoded. */
module Cursor {
  import opened Wrappers
  import opened Texts
  import opened Numbers
  import Uri
  import Base64Url

  datatype Position = Position(sequence: int, id: Text)

  predicate Safe(n: int) {
    -MAX_SAFE <= n <= MAX_SAFE
  }

  /** None stands for the URIError `encodeURIComponent` raises on a lone surrogate. */
  function EncodeCursor(p: Position): (r: Option<Text>)
    requires Safe(p.sequence)
  {
    match Uri.EncodeComponent(p.id)
    case None => None
    case Some(escaped) => Some(Base64Url.Encoded(IntegerText(p.sequence) + [46] + escaped))
  }

  function SafeInteger(n: Num): Option<int> {
    if n.Finite? && n.value == n.value.Floor as real && Safe(n.value.Floor) then Some(n.value.Floor) else None
  }

  /** The early returns of the parser, in the source's order. */
  function DecodeCursor(cursor: Text, round: Rounding): (r: Option<Position>)
    ensures r.Some? ==> 0 <= r.value.sequence <= MAX_SAFE && r.value.id != []
  {
    match Base64Url.Decoded(cursor)
    case None => None
    case Some(decoded) =>
      var separator := Find(decoded, 46, 46);
      if separator == |decoded| || separator == 0 then None
      else
        match SafeInteger(NumberOf(decoded[..separator], round))
        case None => None
        case Some(n) =>
          if n < 0 then None
          else match Uri.DecodeComponent(decoded[separator + 1..]) {
            case None => None
            case Some(id) => if |id| > 0 then Some(Position(n, id)) else None
          }
  }

  /** What is base64url-encoded is ASCII, as the encoder's loop asks. */
  lemma PayloadIsOctets(p: Position)
    requires Safe(p.sequence) && Uri.EncodeComponent(p.id).Some?
    ensures Base64Url.Octets(IntegerText(p.sequence) + [46] + Uri.EncodeComponent(p.id).value)
  {
    Uri.EncodedIsAscii(p.id);
  }

  lemma FirstDot(before: Text, after: Text)
    requires 46 !in before
    ensures var t := before + [46] + after;
      && Find(t, 46, 46) == |before| < |t| && t[..|before|] == before && t[|before| + 1..] == after
  {
    var t := before + [46] + after;
    assert t[|before|] == 46;
    FindInPrefix(before, [46] + after);
    assert before + ([46] + after) == t;
  }

  lemma {:induction false} FindInPrefix(before: Text, rest: Text)
    requires 46 !in before
    ensures Find(before + rest, 46, 46) >= |before|
  {
    if before != [] {
      FindInPrefix(before[1..], rest);
      assert (before + rest)[1..] == before[1..] + rest;
    }
  }

  /** What a minted cursor decodes to, whatever safe integer and id it was minted from. */
  lemma DecodeMinted(p: Position, round: Rounding)
    requires ExactOnSafe(round) && Safe(p.sequence) && Uri.WellFormed(p.id)
    ensures EncodeCursor(p).Some?
    ensures DecodeCursor(EncodeCursor(p).value, round) == if p.sequence >= 0 && p.id != [] then Some(p) else None
  {
    hide NumberOf, ExactOnSafe;
    Uri.ComponentRoundTrip(p.id);
    var number, escaped := IntegerText(p.sequence), Uri.EncodeComponent(p.id).value;
    var payload := number + [46] + escaped;
    PayloadIsOctets(p);
    Base64Url.RoundTrip(payload);
    NumberOfInteger(p.sequence, round);
    FirstDot(number, escaped);
    assert (p.sequence as real).Floor == p.sequence;
  }

  /**
   * The round trip holds exactly for the positions a list mints: a non-negative sequence and a non-empty id
   * without a lone surrogate. Dots and percent signs in the id make no difference.
   */
  lemma RoundTripExactly(p: Position, round: Rounding)
    requires ExactOnSafe(round) && Safe(p.sequence)
    ensures (EncodeCursor(p).Some? && DecodeCursor(EncodeCursor(p).value, round) == Some(p))
       <==> (p.sequence >= 0 && p.id != [] && Uri.WellFormed(p.id))
  {
    Uri.ComponentRoundTrip(p.id);
    if Uri.WellFormed(p.id) {
      DecodeMinted(p, round);
    }
  }

  /** So no two positions share a cursor. */
  lemma CursorsAreDistinct(p: Position, q: Position, round: Rounding)
    requires ExactOnSafe(round) && 0 <= p.sequence <= MAX_SAFE && 0 <= q.sequence <= MAX_SAFE
    requires p.id != [] && q.id != [] && Uri.WellFormed(p.id) && Uri.WellFormed(q.id)
    requires EncodeCursor(p) == EncodeCursor(q)
    ensures p == q
  {
    DecodeMinted(p, round);
    DecodeMinted(q, round);
  }

  // ---- What is accepted ----

  /** The cursor spells a number, a dot and an escaped id: a safe non-negative integer, and an id that is not empty. */
  predicate Spells(cursor: Text, round: Rounding, number: Text, escaped: Text, p: Position) {
    && Base64Url.Decoded(cursor) == Some(number + [0x2E] + escaped)
    && number != [] && 0x2E !in number
    && NumberOf(number, round) == Finite(p.sequence as real) && 0 <= p.sequence <= 9_007_199_254_740_991
    && Uri.DecodeComponent(escaped) == Some(p.id) && p.id != []
  }

  lemma SpelledIsAccepted(cursor: Text, round: Rounding, number: Text, escaped: Text, p: Position)
    requires Spells(cursor, round, number, escaped, p)
    ensures DecodeCursor(cursor, round) == Some(p)
  {
    hide NumberOf, Base64Url.Decoded, Uri.DecodeComponent;
    FirstDot(number, escaped);
    assert (p.sequence as real).Floor == p.sequence;
  }

  lemma AcceptedIsSpelled(cursor: Text, round: Rounding, p: Position) returns (number: Text, escaped: Text)
    requires DecodeCursor(cursor, round) == Some(p)
    ensures Spells(cursor, round, number, escaped, p)
  {
    hide NumberOf, Base64Url.Decoded, Uri.DecodeComponent;
    var decoded := Base64Url.Decoded(cursor).value;
    var separator := Find(decoded, 46, 46);
    number, escaped := decoded[..separator], decoded[separator + 1..];
    assert decoded == number + [0x2E] + escaped;
  }

  /** A cursor is accepted exactly when it spells a position, minted here or not; everything else decodes to nothing. */
  lemma AcceptedIffSpelled(cursor: Text, round: Rounding, p: Position)
    ensures DecodeCursor(cursor, round) == Some(p) <==> exists number, escaped :: Spells(cursor, round, number, escaped, p)
  {
    hide DecodeCursor, Spells;
    if number, escaped :| Spells(cursor, round, number, escaped, p) {
      SpelledIsAccepted(cursor, round, number, escaped, p);
    }
    if DecodeCursor(cursor, round) == Some(p) {
      var number, escaped := AcceptedIsSpelled(cursor, round, p);
    }
  }
}
