/**
 * Function bodies of the arithmetic catalog as text with their references
 * to other catalog functions marked, and the scan that finds those
 * references again in the rendered text: every `c_` followed by an
 * identifier names a catalog function `c_<name>`.
 */
module BodyText {

  /** A run of literal GLSL text, or a reference `c_<name>` to a catalog function. */
  datatype Piece = Text(s: string) | Ref(name: string)

  type Body = seq<Piece>

  /** The GLSL text of a body. */
  function Render(b: Body): string {
    if b == [] then ""
    else (match b[0] case Text(s) => s case Ref(n) => "c_" + n) + Render(b[1..])
  }

  predicate IsIdentChar(ch: char) {
    ('a' <= ch <= 'z') || ('A' <= ch <= 'Z') || ('0' <= ch <= '9') || ch == '_'
  }

  /** The longest prefix of `s` made of identifier characters. */
  function Ident(s: string): (r: string)
    ensures |r| <= |s| && r == s[..|r|]
    ensures forall i :: 0 <= i < |r| ==> IsIdentChar(r[i])
    ensures |r| < |s| ==> !IsIdentChar(s[|r|])
  {
    if s != [] && IsIdentChar(s[0]) then [s[0]] + Ident(s[1..]) else ""
  }

  /** The names `X` of all occurrences of `c_X` in `s`. */
  function Refs(s: string): set<string>
    decreases |s|
  {
    if |s| < 2 then {}
    else if s[0] == 'c' && s[1] == '_' then {Ident(s[2..])} + Refs(s[2..])
    else Refs(s[1..])
  }

  /** No character of `s` is `ch`. */
  predicate Lacks(s: string, ch: char) {
    forall i :: 0 <= i < |s| ==> s[i] != ch
  }

  /** Every character of `s` can occur in an identifier. */
  predicate IsIdent(s: string) {
    forall i :: 0 <= i < |s| ==> IsIdentChar(s[i])
  }

  /** `s` contains no `c_`. */
  predicate NoMarker(s: string) {
    forall i :: 0 <= i < |s| - 1 ==> !(s[i] == 'c' && s[i + 1] == '_')
  }

  /**
   * A text run holds no underscore, so no `c_` can start inside it or at
   * its end; a reference name is made of identifier characters and holds
   * no `c_` (it has no `c` when it has an underscore).
   */
  predicate PieceOk(p: Piece) {
    match p
    case Text(s) => |s| > 0 && Lacks(s, '_')
    case Ref(n) => |n| > 0 && (Lacks(n, 'c') || Lacks(n, '_')) && IsIdent(n)
  }

  /**
   * Two adjacent pieces do not run together: a reference is followed by
   * text whose first character cannot continue the name.
   */
  predicate SeamOk(p: Piece, q: Piece)
    requires PieceOk(p) && PieceOk(q)
  {
    p.Ref? ==> q.Text? && !IsIdentChar(q.s[0])
  }

  predicate WellFormed(b: Body) {
    && (forall i :: 0 <= i < |b| ==> PieceOk(b[i]))
    && (forall i :: 0 <= i < |b| - 1 ==> SeamOk(b[i], b[i + 1]))
  }

  /** The name a piece references, if it is a reference. */
  function RefSet(p: Piece): set<string> {
    if p.Ref? then {p.name} else {}
  }

  /** The names referenced by the pieces of a body. */
  function RefNames(b: Body): set<string> {
    if b == [] then {} else RefSet(b[0]) + RefNames(b[1..])
  }

  lemma {:induction false} RefsSkipText(s: string, t: string)
    requires NoMarker(s)
    requires !(|s| > 0 && |t| > 0 && s[|s| - 1] == 'c' && t[0] == '_')
    ensures Refs(s + t) == Refs(t)
    decreases |s|
  {
    if |s| == 0 {
      assert s + t == t;
    } else if |s| == 1 {
      assert (s + t)[1..] == t;
    } else {
      assert (s + t)[1..] == s[1..] + t;
      RefsSkipText(s[1..], t);
    }
  }

  lemma {:induction false} IdentStops(n: string, t: string)
    requires forall i :: 0 <= i < |n| ==> IsIdentChar(n[i])
    requires t == [] || !IsIdentChar(t[0])
    ensures Ident(n + t) == n
    decreases |n|
  {
    if n == [] {
      assert n + t == t;
    } else {
      assert (n + t)[1..] == n[1..] + t;
      IdentStops(n[1..], t);
    }
  }

  lemma NoUnderscoreNoMarker(s: string)
    requires Lacks(s, '_') || Lacks(s, 'c')
    ensures NoMarker(s)
  {
  }

  lemma RefsOfReference(n: string, t: string)
    requires PieceOk(Ref(n))
    requires t == [] || !IsIdentChar(t[0])
    ensures Refs("c_" + n + t) == {n} + Refs(t)
  {
    var s := "c_" + n + t;
    assert s[2..] == n + t;
    IdentStops(n, t);
    NoUnderscoreNoMarker(n);
    RefsSkipText(n, t);
  }

  /**
   * Rendering then scanning finds exactly the marked references, also when
   * the text goes on with `t` and `t` cannot continue a name.
   */
  lemma {:induction false} RefsOfRender(b: Body, t: string)
    requires WellFormed(b)
    requires t == [] || !IsIdentChar(t[0])
    ensures Refs(Render(b) + t) == RefNames(b) + Refs(t)
  {
    if b == [] {
      assert Render(b) + t == t;
    } else {
      WellFormedTail(b);
      RefsOfRender(b[1..], t);
      RestStart(b, t);
      if b[0].Text? {
        RefsOfTextFirst(b, t);
      } else {
        RefsOfRefFirst(b, t);
      }
    }
  }

  /** One step of `RefsOfRender` when the body starts with text. */
  lemma RefsOfTextFirst(b: Body, t: string)
    requires |b| > 0 && b[0].Text? && PieceOk(b[0])
    requires Refs(Render(b[1..]) + t) == RefNames(b[1..]) + Refs(t)
    requires var rest := Render(b[1..]) + t; rest == [] || rest[0] != '_'
    ensures Refs(Render(b) + t) == RefNames(b) + Refs(t)
  {
    var s, rest := b[0].s, Render(b[1..]) + t;
    NoUnderscoreNoMarker(s);
    assert Render(b) + t == s + rest;
    RefsSkipText(s, rest);
    assert RefNames(b) == RefNames(b[1..]);
  }

  /** One step of `RefsOfRender` when the body starts with a reference. */
  lemma RefsOfRefFirst(b: Body, t: string)
    requires |b| > 0 && b[0].Ref? && PieceOk(b[0])
    requires Refs(Render(b[1..]) + t) == RefNames(b[1..]) + Refs(t)
    requires var rest := Render(b[1..]) + t; rest == [] || !IsIdentChar(rest[0])
    ensures Refs(Render(b) + t) == RefNames(b) + Refs(t)
  {
    var n, rest := b[0].name, Render(b[1..]) + t;
    assert Render(b) + t == "c_" + n + rest;
    RefsOfReference(n, rest);
    assert RefNames(b) == {n} + RefNames(b[1..]);
  }

  lemma WellFormedTail(b: Body)
    requires WellFormed(b) && |b| > 0
    ensures WellFormed(b[1..])
  {
    forall i | 0 <= i < |b[1..]| ensures PieceOk(b[1..][i]) { assert b[1..][i] == b[i + 1]; }
    forall i | 0 <= i < |b[1..]| - 1 ensures SeamOk(b[1..][i], b[1..][i + 1]) {
      assert b[1..][i] == b[i + 1] && b[1..][i + 1] == b[i + 2];
    }
  }

  /**
   * What follows the first piece never starts with `_`, and after a
   * reference it cannot continue the name.
   */
  lemma RestStart(b: Body, t: string)
    requires WellFormed(b) && |b| > 0
    requires t == [] || !IsIdentChar(t[0])
    ensures var rest := Render(b[1..]) + t;
      && (rest == [] || rest[0] != '_')
      && (b[0].Ref? ==> rest == [] || !IsIdentChar(rest[0]))
  {
    if |b| > 1 {
      assert PieceOk(b[0]) && PieceOk(b[1]) && SeamOk(b[0], b[1]);
      assert Render(b[1..]) == (match b[1] case Text(s) => s case Ref(n) => "c_" + n) + Render(b[2..]) by {
        assert b[1..][1..] == b[2..];
      }
    } else {
      assert Render(b[1..]) == [];
    }
  }

  /** The references of a one-piece body. */
  lemma RefNames1(p0: Piece)
    ensures RefNames([p0]) == RefSet(p0)
  {
    assert [p0][1..] == [];
  }

  lemma Drop2(p0: Piece, p1: Piece)
    ensures RefNames([p0, p1]) == RefSet(p0) + RefNames([p1])
  {
    assert [p0, p1][1..] == [p1];
  }

  lemma Drop3(p0: Piece, p1: Piece, p2: Piece)
    ensures RefNames([p0, p1, p2]) == RefSet(p0) + RefNames([p1, p2])
  {
    assert [p0, p1, p2][1..] == [p1, p2];
  }

  lemma Drop4(p0: Piece, p1: Piece, p2: Piece, p3: Piece)
    ensures RefNames([p0, p1, p2, p3]) == RefSet(p0) + RefNames([p1, p2, p3])
  {
    assert [p0, p1, p2, p3][1..] == [p1, p2, p3];
  }

  lemma Drop5(p0: Piece, p1: Piece, p2: Piece, p3: Piece, p4: Piece)
    ensures RefNames([p0, p1, p2, p3, p4]) == RefSet(p0) + RefNames([p1, p2, p3, p4])
  {
    assert [p0, p1, p2, p3, p4][1..] == [p1, p2, p3, p4];
  }

  lemma Drop6(p0: Piece, p1: Piece, p2: Piece, p3: Piece, p4: Piece, p5: Piece)
    ensures RefNames([p0, p1, p2, p3, p4, p5]) == RefSet(p0) + RefNames([p1, p2, p3, p4, p5])
  {
    assert [p0, p1, p2, p3, p4, p5][1..] == [p1, p2, p3, p4, p5];
  }

  lemma Drop7(p0: Piece, p1: Piece, p2: Piece, p3: Piece, p4: Piece, p5: Piece, p6: Piece)
    ensures RefNames([p0, p1, p2, p3, p4, p5, p6]) == RefSet(p0) + RefNames([p1, p2, p3, p4, p5, p6])
  {
    assert [p0, p1, p2, p3, p4, p5, p6][1..] == [p1, p2, p3, p4, p5, p6];
  }

  /** The references of a five-piece body, piece by piece. */
  lemma RefNames5(p0: Piece, p1: Piece, p2: Piece, p3: Piece, p4: Piece)
    ensures RefNames([p0, p1, p2, p3, p4]) == RefSet(p0) + (RefSet(p1) + (RefSet(p2) + (RefSet(p3) + RefSet(p4))))
  {
    Drop5(p0, p1, p2, p3, p4);
    Drop4(p1, p2, p3, p4);
    Drop3(p2, p3, p4);
    Drop2(p3, p4);
    RefNames1(p4);
  }

  /** The references of a seven-piece body, piece by piece. */
  lemma RefNames7(p0: Piece, p1: Piece, p2: Piece, p3: Piece, p4: Piece, p5: Piece, p6: Piece)
    ensures RefNames([p0, p1, p2, p3, p4, p5, p6]) ==
      RefSet(p0) + (RefSet(p1) + (RefSet(p2) + (RefSet(p3) + (RefSet(p4) + (RefSet(p5) + RefSet(p6))))))
  {
    Drop7(p0, p1, p2, p3, p4, p5, p6);
    Drop6(p1, p2, p3, p4, p5, p6);
    Drop5(p2, p3, p4, p5, p6);
    Drop4(p3, p4, p5, p6);
    Drop3(p4, p5, p6);
    Drop2(p5, p6);
    RefNames1(p6);
  }

  /** A one-piece body is well-formed when its piece is. */
  lemma Shape1(p0: Piece)
    requires PieceOk(p0)
    ensures WellFormed([p0])
  {
  }

  /** A five-piece body is well-formed when its pieces and seams are. */
  lemma Shape5(p0: Piece, p1: Piece, p2: Piece, p3: Piece, p4: Piece)
    requires PieceOk(p0) && PieceOk(p1) && PieceOk(p2) && PieceOk(p3) && PieceOk(p4)
    requires SeamOk(p0, p1) && SeamOk(p1, p2) && SeamOk(p2, p3) && SeamOk(p3, p4)
    ensures WellFormed([p0, p1, p2, p3, p4])
  {
  }

  /** A seven-piece body is well-formed when its pieces and seams are. */
  lemma Shape7(p0: Piece, p1: Piece, p2: Piece, p3: Piece, p4: Piece, p5: Piece, p6: Piece)
    requires PieceOk(p0) && PieceOk(p1) && PieceOk(p2) && PieceOk(p3) && PieceOk(p4) && PieceOk(p5) && PieceOk(p6)
    requires SeamOk(p0, p1) && SeamOk(p1, p2) && SeamOk(p2, p3) && SeamOk(p3, p4) && SeamOk(p4, p5) && SeamOk(p5, p6)
    ensures WellFormed([p0, p1, p2, p3, p4, p5, p6])
  {
  }

  /** An identifier cannot run on into text that starts with a non-identifier character. */
  lemma {:induction false} IdentConcat(u: string, t: string)
    requires t == [] || !IsIdentChar(t[0])
    ensures Ident(u + t) == Ident(u)
    decreases |u|
  {
    if u == [] {
      assert u + t == t;
    } else if IsIdentChar(u[0]) {
      assert (u + t)[1..] == u[1..] + t;
      IdentConcat(u[1..], t);
    }
  }

  /**
   * Scanning two texts glued together finds the references of both when
   * the second cannot continue a name of the first.
   */
  lemma {:induction false} RefsConcat(s: string, t: string)
    requires t == [] || !IsIdentChar(t[0])
    ensures Refs(s + t) == Refs(s) + Refs(t)
    decreases |s|
  {
    if |s| == 0 {
      assert s + t == t;
    } else if |s| == 1 {
      assert (s + t)[1..] == t;
    } else if s[0] == 'c' && s[1] == '_' {
      assert (s + t)[2..] == s[2..] + t;
      IdentConcat(s[2..], t);
      RefsConcat(s[2..], t);
    } else {
      assert (s + t)[1..] == s[1..] + t;
      RefsConcat(s[1..], t);
    }
  }

  /** A text without `c_` references nothing. */
  lemma NoMarkerNoRefs(s: string)
    requires NoMarker(s)
    ensures Refs(s) == {}
  {
    assert s + [] == s;
    RefsSkipText(s, []);
  }
}
