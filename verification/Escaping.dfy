/** The Markdown escaper: a chain of global replacements, shown to be one substitution per character. */
module Escaping {
  import opened Texts

  const VALUE_MAX: nat := 500

  const AMP: Unit := 0x26
  const BACKSLASH: Unit := 0x5C
  const PIPE: Unit := 0x7C
  const BACKTICK: Unit := 0x60
  const LESS: Unit := 0x3C
  const GREATER: Unit := 0x3E
  const SPACE: Unit := 0x20
  const LF: Unit := 0x0A
  const ELLIPSIS: Unit := 0x2026

  const AMP_ENTITY: Text := [0x26, 0x61, 0x6D, 0x70, 0x3B]
  const BACKTICK_ENTITY: Text := [0x26, 0x23, 0x39, 0x36, 0x3B]
  const LESS_ENTITY: Text := [0x26, 0x6C, 0x74, 0x3B]
  const GREATER_ENTITY: Text := [0x26, 0x67, 0x74, 0x3B]

  predicate IsBracket(u: Unit) {
    u == 0x5B || u == 0x5D || u == 0x28 || u == 0x29
  }

  predicate IsNewline(u: Unit) {
    u == 0x0D || u == LF
  }

  /** A global replacement of one character. */
  function Replace(t: Text, u: Unit, into: Text): Text {
    if t == [] then [] else (if t[0] == u then into else [t[0]]) + Replace(t[1..], u, into)
  }

  /** The replacement that puts a backslash before every bracket. */
  function EscapeBrackets(t: Text): Text {
    if t == [] then [] else (if IsBracket(t[0]) then [BACKSLASH, t[0]] else [t[0]]) + EscapeBrackets(t[1..])
  }

  function SkipNewlines(t: Text): (r: Text)
    ensures |r| <= |t|
  {
    if t != [] && IsNewline(t[0]) then SkipNewlines(t[1..]) else t
  }

  /** The replacement of every run of newlines into one space. */
  function Flatten(t: Text): Text
    decreases |t|
  {
    if t == [] then []
    else if IsNewline(t[0]) then [SPACE] + Flatten(SkipNewlines(t))
    else [t[0]] + Flatten(t[1..])
  }

  function Capped(value: Text): Text {
    if |value| > VALUE_MAX then value[..VALUE_MAX] + [ELLIPSIS] else value
  }

  function Replacements(t: Text): Text {
    var t1 := Replace(t, AMP, AMP_ENTITY);
    var t2 := Replace(t1, BACKSLASH, [BACKSLASH, BACKSLASH]);
    var t3 := Replace(t2, PIPE, [BACKSLASH, PIPE]);
    var t4 := EscapeBrackets(t3);
    var t5 := Replace(t4, BACKTICK, BACKTICK_ENTITY);
    var t6 := Replace(t5, LESS, LESS_ENTITY);
    Replace(t6, GREATER, GREATER_ENTITY)
  }

  function EscapeMarkdownText(value: Text): Text {
    Trim(Flatten(Replacements(Capped(value))))
  }

  // ---- One substitution ----

  /** What each character becomes in the end. */
  function Escape(u: Unit): Text {
    if u == AMP then AMP_ENTITY
    else if u == BACKTICK then BACKTICK_ENTITY
    else if u == LESS then LESS_ENTITY
    else if u == GREATER then GREATER_ENTITY
    else if u == BACKSLASH || u == PIPE || IsBracket(u) then [BACKSLASH, u]
    else [u]
  }

  function Substituted(t: Text): Text {
    if t == [] then [] else Escape(t[0]) + Substituted(t[1..])
  }

  /** What a value says once capped, put on one line and trimmed. */
  function Normal(value: Text): Text {
    Trim(Flatten(Capped(value)))
  }

  lemma {:induction false} ReplaceAppend(a: Text, b: Text, u: Unit, into: Text)
    ensures Replace(a + b, u, into) == Replace(a, u, into) + Replace(b, u, into)
  {
    if a == [] {
      assert a + b == b;
    } else {
      assert (a + b)[1..] == a[1..] + b;
      ReplaceAppend(a[1..], b, u, into);
    }
  }

  lemma {:induction false} BracketsAppend(a: Text, b: Text)
    ensures EscapeBrackets(a + b) == EscapeBrackets(a) + EscapeBrackets(b)
  {
    if a == [] {
      assert a + b == b;
    } else {
      assert (a + b)[1..] == a[1..] + b;
      BracketsAppend(a[1..], b);
    }
  }

  lemma ReplacementsAppend(a: Text, b: Text)
    ensures Replacements(a + b) == Replacements(a) + Replacements(b)
  {
    var a1, b1 := Replace(a, AMP, AMP_ENTITY), Replace(b, AMP, AMP_ENTITY);
    ReplaceAppend(a, b, AMP, AMP_ENTITY);
    var a2, b2 := Replace(a1, BACKSLASH, [BACKSLASH, BACKSLASH]), Replace(b1, BACKSLASH, [BACKSLASH, BACKSLASH]);
    ReplaceAppend(a1, b1, BACKSLASH, [BACKSLASH, BACKSLASH]);
    var a3, b3 := Replace(a2, PIPE, [BACKSLASH, PIPE]), Replace(b2, PIPE, [BACKSLASH, PIPE]);
    ReplaceAppend(a2, b2, PIPE, [BACKSLASH, PIPE]);
    var a4, b4 := EscapeBrackets(a3), EscapeBrackets(b3);
    BracketsAppend(a3, b3);
    var a5, b5 := Replace(a4, BACKTICK, BACKTICK_ENTITY), Replace(b4, BACKTICK, BACKTICK_ENTITY);
    ReplaceAppend(a4, b4, BACKTICK, BACKTICK_ENTITY);
    var a6, b6 := Replace(a5, LESS, LESS_ENTITY), Replace(b5, LESS, LESS_ENTITY);
    ReplaceAppend(a5, b5, LESS, LESS_ENTITY);
    ReplaceAppend(a6, b6, GREATER, GREATER_ENTITY);
  }

  /** A text without a character is left alone into the replacement of that character. */
  lemma {:induction false} ReplaceNothing(t: Text, u: Unit, into: Text)
    requires forall i :: 0 <= i < |t| ==> t[i] != u
    ensures Replace(t, u, into) == t
  {
    if t != [] {
      ReplaceNothing(t[1..], u, into);
    }
  }

  lemma {:induction false} NoBrackets(t: Text)
    requires forall i :: 0 <= i < |t| ==> !IsBracket(t[i])
    ensures EscapeBrackets(t) == t
  {
    if t != [] {
      NoBrackets(t[1..]);
    }
  }

  /** What only the first replacement would touch. */
  predicate Inert(t: Text) {
    forall i :: 0 <= i < |t| ==>
      t[i] != BACKSLASH && t[i] != PIPE && !IsBracket(t[i]) && t[i] != BACKTICK && t[i] != LESS && t[i] != GREATER
  }

  /** The replacements after the first leave an entity alone: it holds none of their characters. */
  lemma InertSurvives(t: Text)
    requires Inert(t)
    ensures Replace(t, BACKSLASH, [BACKSLASH, BACKSLASH]) == t && Replace(t, PIPE, [BACKSLASH, PIPE]) == t
    ensures EscapeBrackets(t) == t && Replace(t, BACKTICK, BACKTICK_ENTITY) == t
    ensures Replace(t, LESS, LESS_ENTITY) == t && Replace(t, GREATER, GREATER_ENTITY) == t
  {
    ReplaceNothing(t, BACKSLASH, [BACKSLASH, BACKSLASH]);
    ReplaceNothing(t, PIPE, [BACKSLASH, PIPE]);
    NoBrackets(t);
    ReplaceNothing(t, BACKTICK, BACKTICK_ENTITY);
    ReplaceNothing(t, LESS, LESS_ENTITY);
    ReplaceNothing(t, GREATER, GREATER_ENTITY);
  }

  lemma EntitiesAreInert()
    ensures Inert(AMP_ENTITY) && Inert(BACKTICK_ENTITY) && Inert(LESS_ENTITY) && Inert(GREATER_ENTITY)
  {}

  lemma ReplaceSingle(u: Unit, x: Unit, into: Text)
    ensures Replace([u], x, into) == if u == x then into else [u]
  {
    assert [u][1..] == [];
    assert into + [] == into;
  }

  lemma BracketsSingle(u: Unit)
    ensures EscapeBrackets([u]) == if IsBracket(u) then [BACKSLASH, u] else [u]
  {
    assert [u][1..] == [];
  }

  /** The first four replacements write the entity of & and every backslash; the last three write the other entities. */
  function Replacements1To4(t: Text): Text {
    EscapeBrackets(Replace(Replace(Replace(t, AMP, AMP_ENTITY), BACKSLASH, [BACKSLASH, BACKSLASH]), PIPE, [BACKSLASH, PIPE]))
  }

  function Replacements5To7(t: Text): Text {
    Replace(Replace(Replace(t, BACKTICK, BACKTICK_ENTITY), LESS, LESS_ENTITY), GREATER, GREATER_ENTITY)
  }

  lemma FirstFourOfOne(u: Unit)
    ensures Replacements1To4([u])
      == if u == AMP then AMP_ENTITY else if u == BACKSLASH || u == PIPE || IsBracket(u) then [BACKSLASH, u] else [u]
  {
    hide Replace, EscapeBrackets;
    ReplaceSingle(u, AMP, AMP_ENTITY);
    ReplaceSingle(u, BACKSLASH, [BACKSLASH, BACKSLASH]);
    ReplaceSingle(u, PIPE, [BACKSLASH, PIPE]);
    BracketsSingle(u);
    EntitiesAreInert();
    InertSurvives(AMP_ENTITY);
    ReplaceNothing([BACKSLASH, BACKSLASH], PIPE, [BACKSLASH, PIPE]);
    NoBrackets([BACKSLASH, BACKSLASH]);
    NoBrackets([BACKSLASH, PIPE]);
  }

  lemma LastThreeOfOne(u: Unit)
    ensures Replacements5To7([u])
      == if u == BACKTICK then BACKTICK_ENTITY else if u == LESS then LESS_ENTITY else if u == GREATER then GREATER_ENTITY else [u]
  {
    ReplaceSingle(u, BACKTICK, BACKTICK_ENTITY);
    ReplaceSingle(u, LESS, LESS_ENTITY);
    ReplaceSingle(u, GREATER, GREATER_ENTITY);
    EntitiesAreInert();
    InertSurvives(BACKTICK_ENTITY);
    InertSurvives(LESS_ENTITY);
  }

  lemma LastThreeOfPair(u: Unit)
    requires u != BACKTICK && u != LESS && u != GREATER
    ensures Replacements5To7([BACKSLASH, u]) == [BACKSLASH, u]
  {
    ReplaceNothing([BACKSLASH, u], BACKTICK, BACKTICK_ENTITY);
    ReplaceNothing([BACKSLASH, u], LESS, LESS_ENTITY);
    ReplaceNothing([BACKSLASH, u], GREATER, GREATER_ENTITY);
  }

  lemma ReplacementsOfOne(u: Unit)
    ensures Replacements([u]) == Escape(u)
  {
    assert Replacements([u]) == Replacements5To7(Replacements1To4([u]));
    FirstFourOfOne(u);
    if u == AMP {
      EntitiesAreInert();
      InertSurvives(AMP_ENTITY);
    } else if u == BACKSLASH || u == PIPE || IsBracket(u) {
      LastThreeOfPair(u);
    } else {
      LastThreeOfOne(u);
    }
  }

  /** The ordered chain equals one substitution: no replacement rewrites what an earlier one wrote. */
  lemma {:induction false} ChainIsSubstitution(t: Text)
    ensures Replacements(t) == Substituted(t)
  {
    if t == [] {
      assert Replacements([]) == [];
    } else {
      assert t == [t[0]] + t[1..];
      ReplacementsAppend([t[0]], t[1..]);
      ReplacementsOfOne(t[0]);
      ChainIsSubstitution(t[1..]);
    }
  }

  // ---- Flattening and trimming commute with it ----

  lemma {:induction false} SkipCommutes(t: Text)
    ensures SkipNewlines(Substituted(t)) == Substituted(SkipNewlines(t))
  {
    if t != [] {
      if IsNewline(t[0]) {
        assert Substituted(t)[1..] == Substituted(t[1..]);
        SkipCommutes(t[1..]);
      } else {
        assert !IsNewline(Escape(t[0])[0]);
      }
    }
  }

  /** A prefix without newlines stays as it is. */
  lemma {:induction false} FlattenPrefix(prefix: Text, rest: Text)
    requires forall i :: 0 <= i < |prefix| ==> !IsNewline(prefix[i])
    ensures Flatten(prefix + rest) == prefix + Flatten(rest)
  {
    if prefix == [] {
      assert prefix + rest == rest;
    } else {
      assert (prefix + rest)[1..] == prefix[1..] + rest;
      FlattenPrefix(prefix[1..], rest);
    }
  }

  lemma SubstitutedCons(u: Unit, rest: Text)
    ensures Substituted([u] + rest) == Escape(u) + Substituted(rest)
  {
    assert ([u] + rest)[1..] == rest;
  }

  lemma FlattenRun(t: Text)
    requires t != [] && IsNewline(t[0])
    ensures |SkipNewlines(t)| < |t| && Flatten(t) == [SPACE] + Flatten(SkipNewlines(t))
  {
    assert SkipNewlines(t) == SkipNewlines(t[1..]);
  }

  lemma StartsAlike(t: Text)
    requires t != [] && IsNewline(t[0])
    ensures Substituted(t) != [] && Substituted(t)[0] == t[0]
  {
    EscapeKeepsEnds(t[0]);
  }

  lemma FlattenNewline(t: Text)
    requires t != [] && IsNewline(t[0])
    ensures Flatten(Substituted(t)) == [SPACE] + Flatten(Substituted(SkipNewlines(t)))
    ensures Substituted(Flatten(t)) == [SPACE] + Substituted(Flatten(SkipNewlines(t)))
  {
    FlattenRun(t);
    SkipCommutes(t);
    StartsAlike(t);
    FlattenRun(Substituted(t));
    SubstitutedCons(SPACE, Flatten(SkipNewlines(t)));
  }

  lemma {:induction false} FlattenCommutes(t: Text)
    ensures Flatten(Substituted(t)) == Substituted(Flatten(t))
    decreases |t|
  {
    if t != [] {
      if IsNewline(t[0]) {
        FlattenRun(t);
        FlattenNewline(t);
        FlattenCommutes(SkipNewlines(t));
      } else {
        FlattenPrefix(Escape(t[0]), Substituted(t[1..]));
        FlattenCommutes(t[1..]);
        assert Flatten(t)[1..] == Flatten(t[1..]);
      }
    }
  }

  lemma {:induction false} SubstitutedAppend(a: Text, b: Text)
    ensures Substituted(a + b) == Substituted(a) + Substituted(b)
  {
    if a == [] {
      assert a + b == b;
    } else {
      assert (a + b)[1..] == a[1..] + b;
      SubstitutedAppend(a[1..], b);
    }
  }

  /** Substituting neither makes nor removes white space at an end. */
  lemma EscapeKeepsEnds(u: Unit)
    ensures Escape(u) != []
    ensures IsSpace(u) ==> Escape(u) == [u]
    ensures !IsSpace(u) ==> !IsSpace(Escape(u)[0]) && !IsSpace(Escape(u)[|Escape(u)| - 1])
  {}

  lemma {:induction false} TrimStartCommutes(t: Text)
    ensures TrimStart(Substituted(t)) == Substituted(TrimStart(t))
  {
    if t != [] {
      EscapeKeepsEnds(t[0]);
      if IsSpace(t[0]) {
        assert Substituted(t)[1..] == Substituted(t[1..]);
        TrimStartCommutes(t[1..]);
      }
    }
  }

  lemma {:induction false} TrimEndCommutes(t: Text)
    ensures TrimEnd(Substituted(t)) == Substituted(TrimEnd(t))
  {
    if t != [] {
      var last := |t| - 1;
      EscapeKeepsEnds(t[last]);
      assert t == t[..last] + [t[last]];
      SubstitutedAppend(t[..last], [t[last]]);
      assert Substituted([t[last]]) == Escape(t[last]);
      if IsSpace(t[last]) {
        assert Substituted(t)[..|Substituted(t)| - 1] == Substituted(t[..last]);
        TrimEndCommutes(t[..last]);
      }
    }
  }

  /** The whole escaper is one substitution on the normal form of its input. */
  lemma EscaperIsSubstitution(value: Text)
    ensures EscapeMarkdownText(value) == Substituted(Normal(value))
  {
    ChainIsSubstitution(Capped(value));
    FlattenCommutes(Capped(value));
    TrimStartCommutes(Flatten(Capped(value)));
    TrimEndCommutes(TrimStart(Flatten(Capped(value))));
  }

  // ---- It can be read back ----

  predicate StartsWith(t: Text, prefix: Text) {
    |t| >= |prefix| && t[..|prefix|] == prefix
  }

  /** The character whose entity a text starts with; 0 when it starts with none. */
  function EntityAt(t: Text): (u: Unit)
    ensures u != 0 ==> StartsWith(t, Escape(u))
  {
    if StartsWith(t, AMP_ENTITY) then AMP
    else if StartsWith(t, BACKTICK_ENTITY) then BACKTICK
    else if StartsWith(t, LESS_ENTITY) then LESS
    else if StartsWith(t, GREATER_ENTITY) then GREATER
    else 0
  }

  function Unescape(t: Text): Text {
    if t == [] then []
    else if t[0] == BACKSLASH && |t| >= 2 then [t[1]] + Unescape(t[2..])
    else if EntityAt(t) != 0 then EscapeKeepsEnds(EntityAt(t)); [EntityAt(t)] + Unescape(t[|Escape(EntityAt(t))|..])
    else [t[0]] + Unescape(t[1..])
  }

  /** An entity is read as the character it stands for: no entity is a prefix of another. */
  lemma EntityReads(u: Unit, rest: Text)
    requires u == AMP || u == BACKTICK || u == LESS || u == GREATER
    ensures EntityAt(Escape(u) + rest) == u
  {
    var t := Escape(u) + rest;
    assert t[..|Escape(u)|] == Escape(u);
    assert t[1] == Escape(u)[1];
    assert StartsWith(t, AMP_ENTITY) ==> t[..5][1] == 0x61;
    assert StartsWith(t, BACKTICK_ENTITY) ==> t[..5][1] == 0x23;
    assert StartsWith(t, LESS_ENTITY) ==> t[..4][1] == 0x6C;
    assert StartsWith(t, GREATER_ENTITY) ==> t[..4][1] == 0x67;
  }

  lemma NoEntity(t: Text)
    requires t != [] && t[0] != AMP
    ensures EntityAt(t) == 0
  {
    StartsWithFirst(t, AMP_ENTITY);
    StartsWithFirst(t, BACKTICK_ENTITY);
    StartsWithFirst(t, LESS_ENTITY);
    StartsWithFirst(t, GREATER_ENTITY);
  }

  lemma StartsWithFirst(t: Text, prefix: Text)
    requires prefix != []
    ensures StartsWith(t, prefix) ==> t != [] && t[0] == prefix[0]
  {
    if StartsWith(t, prefix) {
      assert t[..|prefix|][0] == prefix[0];
    }
  }

  lemma UnescapeOne(u: Unit, rest: Text)
    ensures Unescape(Escape(u) + rest) == [u] + Unescape(rest)
  {
    var t := Escape(u) + rest;
    assert t[|Escape(u)|..] == rest;
    if u == AMP || u == BACKTICK || u == LESS || u == GREATER {
      EntityReads(u, rest);
      assert t[0] == AMP;
    } else if u == BACKSLASH || u == PIPE || IsBracket(u) {
      assert t[0] == BACKSLASH && t[1] == u;
    } else {
      NoEntity(t);
    }
  }

  lemma {:induction false} UnescapeSubstituted(t: Text)
    ensures Unescape(Substituted(t)) == t
  {
    if t != [] {
      UnescapeOne(t[0], Substituted(t[1..]));
      UnescapeSubstituted(t[1..]);
    }
  }

  /** Unescaping gives back the capped, flattened, trimmed value: different ones never escape alike. */
  lemma EscapeRoundTrip(value: Text)
    ensures Unescape(EscapeMarkdownText(value)) == Normal(value)
  {
    EscaperIsSubstitution(value);
    UnescapeSubstituted(Normal(value));
  }

  // ---- What it writes, character by character ----

  /** Each character as it is written: five as an entity or behind a backslash, so that none of them means anything. */
  function WrittenAs(u: Unit): Text {
    if u == 0x26 then [0x26, 0x61, 0x6D, 0x70, 0x3B]
    else if u == 0x3C then [0x26, 0x6C, 0x74, 0x3B]
    else if u == 0x3E then [0x26, 0x67, 0x74, 0x3B]
    else if u == 0x60 then [0x26, 0x23, 0x39, 0x36, 0x3B]
    else if u in {0x5B, 0x5C, 0x5D, 0x28, 0x29, 0x7C} then [0x5C, u]
    else [u]
  }

  function Written(t: Text): Text {
    if t == [] then [] else WrittenAs(t[0]) + Written(t[1..])
  }

  /** Read with a backslash taking the character behind it, the text shows no bracket and no pipe, and ends in no escape. */
  predicate Shielded(t: Text) {
    if t == [] then true
    else if t[0] == 0x5C then |t| >= 2 && Shielded(t[2..])
    else t[0] !in {0x5B, 0x5D, 0x28, 0x29, 0x7C} && Shielded(t[1..])
  }

  lemma {:induction false} WrittenIsSubstituted(t: Text)
    ensures Written(t) == Substituted(t)
  {
    if t != [] {
      WrittenIsSubstituted(t[1..]);
    }
  }

  lemma {:induction false} PlainThenShielded(p: Text, rest: Text)
    requires Shielded(rest) && forall i :: 0 <= i < |p| ==> p[i] !in {0x5B, 0x5C, 0x5D, 0x28, 0x29, 0x7C}
    ensures Shielded(p + rest)
  {
    if p == [] {
      assert p + rest == rest;
    } else {
      PlainThenShielded(p[1..], rest);
      assert (p + rest)[1..] == p[1..] + rest;
    }
  }

  lemma {:induction false} WrittenIsShielded(t: Text)
    ensures Shielded(Written(t))
  {
    if t != [] {
      var rest := Written(t[1..]);
      WrittenIsShielded(t[1..]);
      if t[0] in {0x5B, 0x5C, 0x5D, 0x28, 0x29, 0x7C} {
        assert Written(t)[2..] == rest;
      } else {
        PlainThenShielded(WrittenAs(t[0]), rest);
      }
    }
  }

  /**
   * The escaper writes each character of the normal form so; no bracket, and no pipe, is left to mean anything, and no
   * backslash to reach past the end.
   */
  lemma EscaperShields(value: Text)
    ensures EscapeMarkdownText(value) == Written(Normal(value)) && Shielded(EscapeMarkdownText(value))
  {
    EscaperIsSubstitution(value);
    WrittenIsSubstituted(Normal(value));
    WrittenIsShielded(Normal(value));
  }

  predicate Breaks(t: Text) {
    forall i :: 0 <= i < |t| ==> t[i] == 0x0A || t[i] == 0x0D
  }

  predicate Unbroken(t: Text) {
    forall i :: 0 <= i < |t| ==> t[i] != 0x0A && t[i] != 0x0D
  }

  lemma {:induction false} SkipRun(run: Text, rest: Text)
    requires Breaks(run) && (rest != [] ==> rest[0] != 0x0A && rest[0] != 0x0D)
    ensures SkipNewlines(run + rest) == rest
  {
    if run == [] {
      assert run + rest == rest;
    } else {
      SkipRun(run[1..], rest);
      assert (run + rest)[1..] == run[1..] + rest;
    }
  }

  /** Each longest run of line breaks becomes one space, and everything between them stays. */
  lemma FlattenJoinsLines(line: Text, run: Text, rest: Text)
    requires Unbroken(line) && Breaks(run) && run != [] && (rest != [] ==> rest[0] != 0x0A && rest[0] != 0x0D)
    ensures Flatten(line) == line && Flatten(line + run + rest) == line + [0x20] + Flatten(rest)
  {
    hide Flatten;
    FlattenPrefix(line, []);
    assert line + [] == line;
    FlattenNothing();
    FlattenPrefix(line, run + rest);
    assert line + run + rest == line + (run + rest);
    FlattenOfRun(run, rest);
    assert line + ([0x20] + Flatten(rest)) == line + [0x20] + Flatten(rest);
  }

  lemma FlattenNothing()
    ensures Flatten([]) == []
  {}

  lemma FlattenOfRun(run: Text, rest: Text)
    requires Breaks(run) && run != [] && (rest != [] ==> rest[0] != 0x0A && rest[0] != 0x0D)
    ensures Flatten(run + rest) == [0x20] + Flatten(rest)
  {
    hide Flatten;
    SkipRun(run, rest);
    FlattenRun(run + rest);
  }

  /** The first 500 characters, and an ellipsis for any others. */
  function FirstFew(value: Text): Text {
    if |value| > 500 then value[..500] + [0x2026] else value
  }

  /** The normal form is what the first few characters are, flattened and without the white space around them. */
  lemma NormalIsTheMiddle(value: Text) returns (before: Text, after: Text)
    ensures AllSpace(before) && AllSpace(after) && Trimmed(Normal(value))
    ensures Flatten(FirstFew(value)) == before + Normal(value) + after
  {
    TrimIsTrimmed(Flatten(Capped(value)));
    before, after := TrimIsTheMiddle(Flatten(Capped(value)));
  }

  // ---- What it never lets through ----

  predicate Harmless(u: Unit) {
    u != 0x3C && u != 0x3E && u != 0x60 && u != 0x0A && u != 0x0D
  }

  lemma {:induction false} SubstitutedShape(t: Text)
    requires forall i :: 0 <= i < |t| ==> !IsNewline(t[i])
    ensures forall i :: 0 <= i < |Substituted(t)| ==> Harmless(Substituted(t)[i])
    ensures |t| <= |Substituted(t)| <= 5 * |t|
  {
    hide IsBracket;
    if t != [] {
      SubstitutedShape(t[1..]);
      assert forall i :: 0 <= i < |Escape(t[0])| ==> Harmless(Escape(t[0])[i]);
    }
  }

  lemma {:induction false} FlattenShape(t: Text)
    ensures |Flatten(t)| <= |t| && forall i :: 0 <= i < |Flatten(t)| ==> !IsNewline(Flatten(t)[i])
    decreases |t|
  {
    if t != [] {
      if IsNewline(t[0]) {
        assert SkipNewlines(t) == SkipNewlines(t[1..]);
        FlattenShape(SkipNewlines(t));
      } else {
        FlattenShape(t[1..]);
      }
    }
  }

  lemma NormalShape(value: Text)
    ensures |Normal(value)| <= |Capped(value)| <= VALUE_MAX + 1
    ensures Trimmed(Normal(value)) && forall i :: 0 <= i < |Normal(value)| ==> !IsNewline(Normal(value)[i])
  {
    var flat := Flatten(Capped(value));
    FlattenShape(Capped(value));
    TrimIsTrimmed(flat);
    TrimStartRemoves(flat);
    TrimEndRemoves(TrimStart(flat));
  }

  lemma {:induction false} SkippedIsSpace(t: Text)
    ensures AllSpace(SkipNewlines(t)) <==> AllSpace(t)
  {
    if t != [] && IsNewline(t[0]) {
      SkippedIsSpace(t[1..]);
      SpaceSplits(t);
    }
  }

  lemma SpaceSplits(t: Text)
    requires t != []
    ensures AllSpace(t) <==> IsSpace(t[0]) && AllSpace(t[1..])
  {
    if IsSpace(t[0]) && AllSpace(t[1..]) {
      assert forall i :: 1 <= i < |t| ==> t[i] == t[1..][i - 1];
    }
  }

  lemma SpaceAfter(u: Unit, rest: Text)
    ensures AllSpace([u] + rest) <==> IsSpace(u) && AllSpace(rest)
  {
    SpaceSplits([u] + rest);
    assert ([u] + rest)[1..] == rest;
  }

  lemma {:induction false} FlattenedIsSpace(t: Text)
    ensures AllSpace(Flatten(t)) <==> AllSpace(t)
    decreases |t|
  {
    if t != [] {
      SpaceSplits(t);
      if IsNewline(t[0]) {
        FlattenRun(t);
        FlattenedIsSpace(SkipNewlines(t));
        SkippedIsSpace(t);
        SpaceAfter(SPACE, Flatten(SkipNewlines(t)));
      } else {
        FlattenedIsSpace(t[1..]);
        SpaceAfter(t[0], Flatten(t[1..]));
      }
    }
  }

  /** Nothing but white space, and no more of it than the cap: a longer value ends in an ellipsis instead. */
  predicate Blank(value: Text) {
    |value| <= 500 && AllSpace(value)
  }

  lemma BlankIsNothing(value: Text)
    ensures Normal(value) == [] <==> Blank(value)
  {
    TrimEmpties(Flatten(Capped(value)));
    FlattenedIsSpace(Capped(value));
    if |value| > VALUE_MAX {
      assert Capped(value)[VALUE_MAX] == ELLIPSIS && !IsSpace(ELLIPSIS);
    }
  }

  /** A value is written as nothing exactly when it is blank. */
  lemma EscapedIsBlank(value: Text)
    ensures EscapeMarkdownText(value) == [] <==> Blank(value)
  {
    BlankIsNothing(value);
    EscaperIsSubstitution(value);
    if Normal(value) != [] {
      EscapeKeepsEnds(Normal(value)[0]);
    }
  }

  /** No raw angle bracket, backtick or newline; trimmed; at most five characters for one of the capped value. */
  lemma EscapedShape(value: Text)
    ensures forall i :: 0 <= i < |EscapeMarkdownText(value)| ==> Harmless(EscapeMarkdownText(value)[i])
    ensures Trimmed(EscapeMarkdownText(value))
    ensures |EscapeMarkdownText(value)| <= 5 * |Capped(value)| <= 2505
  {
    EscaperIsSubstitution(value);
    NormalShape(value);
    SubstitutedShape(Normal(value));
    TrimIsTrimmed(Flatten(Replacements(Capped(value))));
  }
}
