/** JavaScript strings: sequences of UTF-16 code units, which may hold lone surrogates. */
module Texts {

  type Unit = u: int | 0 <= u < 0x1_0000
  type Text = seq<Unit>

  /** WhiteSpace and LineTerminator of ECMA-262, sections 12.2 and 12.3: what `trim` and `Number` skip. */
  predicate IsSpace(u: Unit) {
    || 0x09 <= u <= 0x0D || u == 0x20 || u == 0xA0 || u == 0x1680
    || 0x2000 <= u <= 0x200A || u == 0x2028 || u == 0x2029
    || u == 0x202F || u == 0x205F || u == 0x3000 || u == 0xFEFF
  }

  /** Those are tab, line feed, vertical tab, form feed, carriage return, and every space separator and BOM of Unicode. */
  lemma SpacesAre(u: Unit)
    ensures IsSpace(u) <==> u in {
      9, 10, 11, 12, 13, 32, 160, 5760, 8192, 8193, 8194, 8195, 8196, 8197, 8198, 8199, 8200, 8201, 8202,
      8232, 8233, 8239, 8287, 12288, 65279}
  {}

  function TrimStart(t: Text): (r: Text) {
    if t != [] && IsSpace(t[0]) then TrimStart(t[1..]) else t
  }

  function TrimEnd(t: Text): (r: Text) {
    if t != [] && IsSpace(t[|t| - 1]) then TrimEnd(t[..|t| - 1]) else t
  }

  function Trim(t: Text): Text {
    TrimEnd(TrimStart(t))
  }

  /** Nothing to trim at either end. */
  predicate Trimmed(t: Text) {
    t != [] ==> !IsSpace(t[0]) && !IsSpace(t[|t| - 1])
  }

  lemma {:induction false} TrimStartRemoves(t: Text)
    ensures TrimStart(t) != [] ==> !IsSpace(TrimStart(t)[0])
    ensures |TrimStart(t)| <= |t| && TrimStart(t) == t[|t| - |TrimStart(t)|..]
  {
    if t != [] && IsSpace(t[0]) {
      TrimStartRemoves(t[1..]);
    }
  }

  lemma {:induction false} TrimEndRemoves(t: Text)
    ensures TrimEnd(t) != [] ==> !IsSpace(TrimEnd(t)[|TrimEnd(t)| - 1])
    ensures |TrimEnd(t)| <= |t| && TrimEnd(t) == t[..|TrimEnd(t)|]
  {
    if t != [] && IsSpace(t[|t| - 1]) {
      TrimEndRemoves(t[..|t| - 1]);
    }
  }

  predicate AllSpace(t: Text) {
    forall i :: 0 <= i < |t| ==> IsSpace(t[i])
  }

  lemma {:induction false} TrimStartEmpties(t: Text)
    ensures TrimStart(t) == [] <==> AllSpace(t)
  {
    if t != [] && IsSpace(t[0]) {
      TrimStartEmpties(t[1..]);
      if AllSpace(t[1..]) {
        assert forall i :: 1 <= i < |t| ==> t[i] == t[1..][i - 1];
      }
    }
  }

  lemma {:induction false} TrimEndKeepsStart(t: Text)
    requires t != [] && !IsSpace(t[0])
    ensures TrimEnd(t) != []
  {
    if IsSpace(t[|t| - 1]) {
      TrimEndKeepsStart(t[..|t| - 1]);
    }
  }

  /** Trimming leaves nothing exactly of white space. */
  lemma TrimEmpties(t: Text)
    ensures Trim(t) == [] <==> AllSpace(t)
  {
    TrimStartEmpties(t);
    TrimStartRemoves(t);
    if TrimStart(t) != [] {
      TrimEndKeepsStart(TrimStart(t));
    }
  }

  lemma TrimIsTrimmed(t: Text)
    ensures Trimmed(Trim(t))
  {
    TrimStartRemoves(t);
    TrimEndRemoves(TrimStart(t));
  }

  lemma AllSpaceOfBoth(a: Text, b: Text)
    requires AllSpace(a) && AllSpace(b)
    ensures AllSpace(a + b)
  {
    hide IsSpace;
  }

  lemma {:induction false} TrimStartCuts(t: Text)
    ensures |TrimStart(t)| <= |t| && AllSpace(t[..|t| - |TrimStart(t)|])
  {
    hide IsSpace;
    TrimStartRemoves(t);
    if t != [] && IsSpace(t[0]) {
      TrimStartRemoves(t[1..]);
      TrimStartCuts(t[1..]);
      var n := |t| - |TrimStart(t)|;
      assert t[..n] == [t[0]] + t[1..][..n - 1];
      AllSpaceOfBoth([t[0]], t[1..][..n - 1]);
    }
  }

  lemma {:induction false} TrimEndCuts(t: Text)
    ensures |TrimEnd(t)| <= |t| && AllSpace(t[|TrimEnd(t)|..])
  {
    hide IsSpace;
    TrimEndRemoves(t);
    if t != [] && IsSpace(t[|t| - 1]) {
      var last := |t| - 1;
      TrimEndRemoves(t[..last]);
      TrimEndCuts(t[..last]);
      assert t[|TrimEnd(t)|..] == t[..last][|TrimEnd(t)|..] + [t[last]];
      AllSpaceOfBoth(t[..last][|TrimEnd(t)|..], [t[last]]);
    }
  }

  /** Trimming takes white space off both ends, and nothing else. */
  lemma TrimIsTheMiddle(t: Text) returns (before: Text, after: Text)
    ensures AllSpace(before) && AllSpace(after) && t == before + Trim(t) + after
  {
    var rest := TrimStart(t);
    TrimStartRemoves(t);
    TrimStartCuts(t);
    TrimEndRemoves(rest);
    TrimEndCuts(rest);
    before, after := t[..|t| - |rest|], rest[|TrimEnd(rest)|..];
    assert rest == TrimEnd(rest) + after;
  }

  lemma TrimOfTrimmed(t: Text)
    requires Trimmed(t)
    ensures Trim(t) == t
  {}
}
