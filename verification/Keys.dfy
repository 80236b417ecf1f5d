/** Keys made by joining identifiers with NUL, and `split` taking them apart again. */
module Keys {

  const NUL: char := '\0'

  /** `split('\0')`: the pieces between NULs, at least one. */
  function Split(t: string): (pieces: seq<string>)
    ensures pieces != []
    ensures forall i :: 0 <= i < |pieces| ==> NUL !in pieces[i]
  {
    if t == "" then [""]
    else
      var rest := Split(t[1..]);
      if t[0] == NUL then [""] + rest else [[t[0]] + rest[0]] + rest[1..]
  }

  function Join3(a: string, b: string, c: string): string {
    a + [NUL] + b + [NUL] + c
  }

  lemma {:induction false} SplitFirst(a: string, rest: string)
    requires NUL !in a
    ensures Split(a + [NUL] + rest) == [a] + Split(rest)
  {
    var t := a + [NUL] + rest;
    if a == "" {
      assert t[1..] == rest;
    } else {
      assert t[1..] == a[1..] + [NUL] + rest;
      SplitFirst(a[1..], rest);
      assert [a[0]] + a[1..] == a;
    }
  }

  lemma {:induction false} SplitPlain(a: string)
    requires NUL !in a
    ensures Split(a) == [a]
  {
    if a != "" {
      SplitPlain(a[1..]);
      assert [a[0]] + a[1..] == a;
    }
  }

  lemma SplitJoined(a: string, b: string, c: string)
    requires NUL !in a && NUL !in b
    ensures Split(Join3(a, b, c)) == [a, b] + Split(c)
  {
    assert Join3(a, b, c) == a + [NUL] + (b + [NUL] + c);
    SplitFirst(a, b + [NUL] + c);
    SplitFirst(b, c);
  }

  /** Reading the first three pieces of a joined key gives the parts back exactly when no part holds a NUL. */
  lemma PiecesAreParts(a: string, b: string, c: string)
    ensures |Split(Join3(a, b, c))| >= 3
    ensures Split(Join3(a, b, c))[..3] == [a, b, c] <==> '\0' !in a && '\0' !in b && '\0' !in c
  {
    JoinedHasThree(a, b, c);
    var pieces := Split(Join3(a, b, c));
    if NUL !in a && NUL !in b && NUL !in c {
      SplitJoined(a, b, c);
      SplitPlain(c);
    }
    if pieces[..3] == [a, b, c] {
      assert pieces[..3][0] == pieces[0] && pieces[..3][1] == pieces[1] && pieces[..3][2] == pieces[2];
    }
  }

  lemma {:induction false} SplitGrows(a: string, rest: string)
    ensures |Split(a + [NUL] + rest)| >= 1 + |Split(rest)|
  {
    var t := a + [NUL] + rest;
    if a == "" {
      assert t[1..] == rest;
    } else {
      assert t[1..] == a[1..] + [NUL] + rest;
      SplitGrows(a[1..], rest);
    }
  }

  lemma {:induction false} PieceCountAdds(a: string, rest: string)
    ensures |Split(a + [NUL] + rest)| == |Split(a)| + |Split(rest)|
  {
    var t := a + [NUL] + rest;
    if a == "" {
      assert t[1..] == rest;
    } else {
      assert t[1..] == a[1..] + [NUL] + rest;
      PieceCountAdds(a[1..], rest);
    }
  }

  lemma {:induction false} OnePieceIffPlain(a: string)
    ensures |Split(a)| == 1 <==> NUL !in a
  {
    if a != "" {
      OnePieceIffPlain(a[1..]);
    }
  }

  /** A joined key has three pieces exactly when no part holds a NUL. */
  lemma ThreePiecesIffPlain(a: string, b: string, c: string)
    ensures |Split(Join3(a, b, c))| == 3 <==> '\0' !in a && '\0' !in b && '\0' !in c
  {
    assert Join3(a, b, c) == a + [NUL] + (b + [NUL] + c);
    PieceCountAdds(a, b + [NUL] + c);
    PieceCountAdds(b, c);
    OnePieceIffPlain(a);
    OnePieceIffPlain(b);
    OnePieceIffPlain(c);
  }

  lemma JoinedHasThree(a: string, b: string, c: string)
    ensures |Split(Join3(a, b, c))| >= 3
  {
    assert Join3(a, b, c) == a + [NUL] + (b + [NUL] + c);
    SplitGrows(a, b + [NUL] + c);
    SplitGrows(b, c);
  }

  /** A joined key determines its parts when the first two hold no NUL; the last may hold anything. */
  lemma JoinIsInjective(a: string, b: string, c: string, x: string, y: string, z: string)
    requires '\0' !in a && '\0' !in b && '\0' !in x && '\0' !in y
    requires Join3(a, b, c) == Join3(x, y, z)
    ensures a == x && b == y && c == z
  {
    SplitJoined(a, b, c);
    SplitJoined(x, y, z);
    var pieces := Split(Join3(a, b, c));
    assert pieces[0] == a && pieces[0] == x && pieces[1] == b && pieces[1] == y;
    var head := a + [NUL] + b + [NUL];
    assert Join3(a, b, c) == head + c && Join3(x, y, z) == head + z;
    assert (head + c)[|head|..] == c && (head + z)[|head|..] == z;
  }

  lemma AroundNul(t: string) returns (p: string, q: string)
    requires NUL in t
    ensures t == p + [NUL] + q
  {
    var i :| 0 <= i < |t| && t[i] == NUL;
    p, q := t[..i], t[i + 1..];
  }

  /** A NUL inside one part and the joining NUL after it look alike. */
  lemma NulMoves(a: string, p: string, q: string, r: string)
    ensures Join3(a, p + [NUL] + q, r) == Join3(a, p, q + [NUL] + r)
    ensures p + [NUL] + q != p
  {
    assert |p + [NUL] + q| > |p|;
  }

  function Join2(a: string, b: string): string {
    a + [NUL] + b
  }

  /** With two parts, neither holding a NUL, the two pieces are the parts. */
  lemma SplitPair(a: string, b: string)
    requires NUL !in a && NUL !in b
    ensures Split(Join2(a, b)) == [a, b]
  {
    SplitFirst(a, b);
    SplitPlain(b);
  }
}
