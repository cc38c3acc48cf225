/**
 When a second interpolation changes nothing. Interpolation is not idempotent: a
 value that is inserted can be, or complete, the text of another placeholder. This
 module says when that cannot happen: for one template and payload, and, exactly,
 for one payload and all templates.
 */
module SecondPass {
  import opened Options
  import opened Json
  import opened Template

  /* ------------------------------------------- interpolation, by suffixes */

  /** One step of the scan: the first match, or the first character. */
  function Once(x: string, p: Json, f: Json -> string): string
    decreases |x|
  {
    if x == "" then ""
    else
      match MatchAt(x, 0)
      case Some(m) => Shown(p, m.1, f).GetOr(x[..m.0]) + Once(x[m.0..], p, f)
      case None => [x[0]] + Once(x[1..], p, f)
  }

  /** What the first step writes, and how much it reads. */
  function FirstPiece(t: string, p: Json, f: Json -> string): string
    requires t != ""
  {
    match MatchAt(t, 0)
    case Some(m) => Shown(p, m.1, f).GetOr(t[..m.0])
    case None => [t[0]]
  }

  function FirstLength(t: string): (n: nat)
    requires t != ""
    ensures 0 < n <= |t|
  {
    match MatchAt(t, 0)
    case Some(m) => m.0
    case None => 1
  }

  lemma OnceUnfolds(t: string, p: Json, f: Json -> string)
    requires t != ""
    ensures Once(t, p, f) == FirstPiece(t, p, f) + Once(t[FirstLength(t)..], p, f)
  {
    hide MatchAt, Shown;
  }

  /** The whole of x is a placeholder for `path`. */
  ghost predicate IsWhole(x: string, path: string) {
    IsPlaceholder(x, 0, |x|, path)
  }

  lemma AllOfSlice(t: string, i: nat, j: nat, a: nat, b: nat, p: char -> bool)
    requires i <= a <= b <= j <= |t|
    ensures All(t, a, b, p) <==> All(t[i..j], a - i, b - i, p)
  {
    var x := t[i..j];
    if All(t, a, b, p) {
      forall k | a - i <= k < b - i ensures p(x[k]) { assert x[k] == t[i + k]; }
    }
    if All(x, a - i, b - i, p) {
      forall k | a <= k < b ensures p(t[k]) { assert t[k] == x[k - i]; }
    }
  }

  lemma SliceOfSlice(t: string, i: nat, j: nat, a: nat, b: nat)
    requires i <= a <= b <= j <= |t|
    ensures t[i..j][a - i..b - i] == t[a..b]
  {
    var x, y := t[i..j][a - i..b - i], t[a..b];
    assert |x| == |y|;
    forall k | 0 <= k < |x| ensures x[k] == y[k] {
      assert x[k] == t[i..j][a - i + k] == t[a + k];
    }
  }

  lemma ShapeOfSlice(t: string, i: nat, a: nat, b: nat, j: nat)
    requires i + 2 <= a < b && b + 2 <= j <= |t|
    ensures Shape(t, i, a, b, j) <==> Shape(t[i..j], 0, a - i, b - i, j - i)
  {
    hide All, IsSpace, IsPathChar;
    var x := t[i..j];
    assert x[0] == t[i] && x[1] == t[i + 1] && x[j - i - 2] == t[j - 2] && x[j - i - 1] == t[j - 1];
    AllOfSlice(t, i, j, i + 2, a, IsSpace);
    assert All(x, 2, a - i, IsSpace) <==> All(t, i + 2, a, IsSpace);
    AllOfSlice(t, i, j, a, b, IsPathChar);
    AllOfSlice(t, i, j, b, j - 2, IsSpace);
    assert All(x, b - i, j - i - 2, IsSpace) <==> All(t, b, j - 2, IsSpace);
  }

  lemma PlaceholderAt(t: string, i: nat, j: nat, path: string)
    requires i <= |t|
    ensures IsPlaceholder(t, i, j, path) <==> i <= j <= |t| && IsWhole(t[i..j], path)
  {
    if IsPlaceholder(t, i, j, path) {
      var a: nat, b: nat :| Shape(t, i, a, b, j) && path == t[a..b];
      ShapeOfSlice(t, i, a, b, j);
      SliceOfSlice(t, i, j, a, b);
      assert Shape(t[i..j], 0, a - i, b - i, j - i);
    }
    if i <= j <= |t| && IsWhole(t[i..j], path) {
      var a: nat, b: nat :| Shape(t[i..j], 0, a, b, j - i) && path == t[i..j][a..b];
      ShapeOfSlice(t, i, i + a, i + b, j);
      SliceOfSlice(t, i, j, i + a, i + b);
      assert Shape(t, i, i + a, i + b, j);
    }
  }

  /** What starts at i. */
  lemma MatchOfSuffix(t: string, i: nat)
    requires i <= |t|
    ensures
      match MatchAt(t[i..], 0)
      case Some(m) => MatchAt(t, i) == Some((i + m.0, m.1))
      case None => MatchAt(t, i).None?
  {
    hide IsPlaceholder, IsWhole, MatchAt;
    var x := t[i..];
    if MatchAt(x, 0).Some? {
      var m := MatchAt(x, 0).value;
      MatchAtIsThePattern(x, 0, m.0, m.1);
      PlaceholderAt(x, 0, m.0, m.1);
      assert x[0..m.0] == t[i..i + m.0];
      PlaceholderAt(t, i, i + m.0, m.1);
      MatchAtIsThePattern(t, i, i + m.0, m.1);
    } else if MatchAt(t, i).Some? {
      var m := MatchAt(t, i).value;
      MatchAtIsThePattern(t, i, m.0, m.1);
      PlaceholderAt(t, i, m.0, m.1);
      assert x[0..m.0 - i] == t[i..m.0];
      PlaceholderAt(x, 0, m.0 - i, m.1);
      MatchAtIsThePattern(x, 0, m.0 - i, m.1);
    }
  }

  lemma RenderCons(first: Segment, rest: seq<Segment>, p: Json, f: Json -> string)
    ensures Render([first] + rest, p, f) == RenderSegment(first, p, f) + Render(rest, p, f)
  {
    assert ([first] + rest)[1..] == rest;
  }

  lemma {:induction false} RenderIsOnce(t: string, i: nat, p: Json, f: Json -> string)
    requires i <= |t|
    ensures Render(Scan(t, i), p, f) == Once(t[i..], p, f)
    decreases |t| - i
  {
    if i < |t| {
      hide MatchAt, Shown, Render, RenderSegment, Once, Scan;
      MatchOfSuffix(t, i);
      if MatchAt(t, i).Some? {
        var m := MatchAt(t, i).value;
        RenderIsOnce(t, m.0, p, f);
        AtHole(t, i, p, f);
      } else {
        RenderIsOnce(t, i + 1, p, f);
        AtLiteral(t, i, p, f);
      }
    }
  }

  lemma AtHole(t: string, i: nat, p: Json, f: Json -> string)
    requires i < |t| && MatchAt(t, i).Some? && MatchAt(t[i..], 0).Some?
    requires
      var m := MatchAt(t, i).value;
      MatchAt(t[i..], 0).value == (m.0 - i, m.1) && i <= m.0 <= |t|
    ensures
      var m := MatchAt(t, i).value;
      var shown := Shown(p, m.1, f).GetOr(t[i..m.0]);
      && Render(Scan(t, i), p, f) == shown + Render(Scan(t, m.0), p, f)
      && Once(t[i..], p, f) == shown + Once(t[m.0..], p, f)
  {
    hide MatchAt, Shown;
    var m := MatchAt(t, i).value;
    RenderCons(Hole(t[i..m.0], m.1), Scan(t, m.0), p, f);
    assert t[i..][..m.0 - i] == t[i..m.0] && t[i..][m.0 - i..] == t[m.0..];
  }

  lemma AtLiteral(t: string, i: nat, p: Json, f: Json -> string)
    requires i < |t| && MatchAt(t, i).None? && MatchAt(t[i..], 0).None?
    ensures Render(Scan(t, i), p, f) == [t[i]] + Render(Scan(t, i + 1), p, f)
    ensures Once(t[i..], p, f) == [t[i]] + Once(t[i + 1..], p, f)
  {
    hide MatchAt, Shown;
    RenderCons(Literal([t[i]]), Scan(t, i + 1), p, f);
    assert t[i..][1..] == t[i + 1..];
  }

  lemma InterpolateIsOnce(t: string, p: Json, f: Json -> string)
    ensures Interpolate(t, p, f) == Once(t, p, f)
  {
    RenderIsOnce(t, 0, p, f);
    assert t[0..] == t;
  }

  /** A string starts with a match exactly if some beginning of it is a placeholder. */
  lemma StartIs(x: string, j: nat, path: string)
    ensures MatchAt(x, 0) == Some((j, path)) <==> j <= |x| && IsWhole(x[..j], path)
  {
    MatchAtIsThePattern(x, 0, j, path);
    PlaceholderAt(x, 0, j, path);
    if j <= |x| { assert x[0..j] == x[..j]; }
  }

  /** Braces of a placeholder: two at its start, two at its end. */
  lemma Braces(x: string, path: string)
    requires IsWhole(x, path)
    ensures |x| >= 5 && x[0] == x[1] == '{' && x[|x| - 2] == x[|x| - 1] == '}'
    ensures forall k :: 2 <= k < |x| ==> x[k] != '{'
    ensures forall k :: 0 <= k < |x| - 2 ==> x[k] != '}'
    ensures path != "" && All(path, 0, |path|, IsPathChar)
  {
    var a: nat, b: nat :| Shape(x, 0, a, b, |x|) && path == x[a..b];
    forall k | 2 <= k < |x| - 2 ensures x[k] != '{' && x[k] != '}' {
      if k < a {
        assert IsSpace(x[k]);
      } else if k < b {
        assert IsPathChar(x[k]);
      } else {
        assert IsSpace(x[k]);
      }
    }
    assert forall k :: 0 <= k < |path| ==> path[k] == x[a + k];
  }

  /** How the braces of a placeholder are placed. */
  predicate Braced(x: string) {
    && |x| >= 5 && x[0] == x[1] == '{' && x[|x| - 2] == x[|x| - 1] == '}'
    && (forall k :: 2 <= k < |x| ==> x[k] != '{')
    && (forall k :: 0 <= k < |x| - 2 ==> x[k] != '}')
  }

  lemma OnlyBraced(x: string, path: string)
    ensures IsWhole(x, path) ==> Braced(x)
  {
    hide IsWhole;
    if IsWhole(x, path) { Braces(x, path); }
  }

  /** Text after a placeholder at the start. */
  lemma OnceOfPlaceholder(x: string, path: string, y: string, p: Json, f: Json -> string)
    requires IsWhole(x, path)
    ensures Once(x + y, p, f) == Shown(p, path, f).GetOr(x) + Once(y, p, f)
  {
    assert (x + y)[..|x|] == x && (x + y)[|x|..] == y;
    StartIs(x + y, |x|, path);
  }

  lemma OnceOfLiteral(x: string, p: Json, f: Json -> string)
    requires x != "" && MatchAt(x, 0).None?
    ensures Once(x, p, f) == [x[0]] + Once(x[1..], p, f)
  {
  }

  /* --------------------------------------------------- what stays as it is */

  /** Every match in x shows its own text, or nothing. */
  ghost predicate Stable(x: string, p: Json, f: Json -> string) {
    forall i: nat, j: nat, path :: i <= j <= |x| && IsWhole(x[i..j], path) && Shown(p, path, f).Some? ==>
      Shown(p, path, f) == Some(x[i..j])
  }

  lemma StableSuffix(x: string, i: nat, p: Json, f: Json -> string)
    requires Stable(x, p, f) && i <= |x|
    ensures Stable(x[i..], p, f)
  {
    forall k: nat, j: nat, path | k <= j <= |x[i..]| && IsWhole(x[i..][k..j], path) && Shown(p, path, f).Some?
      ensures Shown(p, path, f) == Some(x[i..][k..j])
    {
      assert x[i..][k..j] == x[i + k..i + j];
    }
  }

  lemma Halves(x: string, n: nat)
    requires n <= |x|
    ensures x[..n] + x[n..] == x
  {
  }

  lemma StableStart(x: string, p: Json, f: Json -> string)
    requires x != "" && Stable(x, p, f)
    ensures FirstPiece(x, p, f) == x[..FirstLength(x)]
  {
    hide IsWhole, MatchAt, Shown;
    if MatchAt(x, 0).Some? {
      var m := MatchAt(x, 0).value;
      StartIs(x, m.0, m.1);
      assert x[0..m.0] == x[..m.0];
    }
  }

  lemma {:induction false} StableIsKept(x: string, p: Json, f: Json -> string)
    requires Stable(x, p, f)
    ensures Once(x, p, f) == x
    decreases |x|
  {
    if x != "" {
      hide Once, Stable, FirstPiece, FirstLength;
      var n := FirstLength(x);
      StableStart(x, p, f);
      StableSuffix(x, n, p, f);
      StableIsKept(x[n..], p, f);
      OnceUnfolds(x, p, f);
      Halves(x, n);
    }
  }

  /* -------------------------------------- one template and payload: sufficient */

  /** v and w agree where they overlap if v is put d characters after the start of w; and they do overlap. */
  ghost predicate Meets(v: string, w: string, d: int) {
    && -|v| < d < |w| && (v == "" ==> 0 < d)
    && forall k :: 0 <= k < |w| && 0 <= k - d < |v| ==> w[k] == v[k - d]
  }

  /**
   No value shown for a path of `paths` is, or could be part of, a placeholder that shows something
   other than itself.
   */
  ghost predicate Inert(paths: iset<string>, p: Json, f: Json -> string) {
    forall q, v, w, path, d :: q in paths && Shown(p, q, f) == Some(v) && IsWhole(w, path) && Meets(v, w, d) ==>
      Shown(p, path, f).GetOr(w) == w
  }

  /** In Once(x), the value shown for a path that x mentions begins after `pre`, before place n. */
  ghost predicate Touches(x: string, n: nat, pre: string, q: string, v: string, p: Json, f: Json -> string) {
    |pre| < n && Mentions(x, q) && Shown(p, q, f) == Some(v) && pre + v <= Once(x, p, f)
  }

  /** Up to place n, Once(x) is x, or else a shown value begins there. */
  ghost predicate SameOrTouched(x: string, n: nat, p: Json, f: Json -> string) {
    || x[..if n <= |x| then n else |x|] == Once(x, p, f)[..if n <= |Once(x, p, f)| then n else |Once(x, p, f)|]
    || Touched(x, n, p, f)
  }

  ghost predicate Touched(x: string, n: nat, p: Json, f: Json -> string) {
    exists pre, q, v :: Touches(x, n, pre, q, v, p, f)
  }

  lemma MentionsSuffix(x: string, i: nat, q: string)
    requires i <= |x| && Mentions(x[i..], q)
    ensures Mentions(x, q)
  {
    hide IsWhole, IsPlaceholder;
    var a: nat, b: nat :| IsPlaceholder(x[i..], a, b, q);
    assert a <= |x[i..]| by { StartInside(x[i..], a, b, q); }
    PlaceholderAt(x[i..], a, b, q);
    assert x[i..][a..b] == x[i + a..i + b];
    PlaceholderAt(x, i + a, i + b, q);
  }

  lemma StartInside(t: string, i: nat, j: nat, path: string)
    requires IsPlaceholder(t, i, j, path)
    ensures i <= j <= |t|
  {
  }

  lemma MentionsFirst(x: string)
    requires MatchAt(x, 0).Some?
    ensures Mentions(x, MatchAt(x, 0).value.1)
  {
    hide IsPlaceholder, MatchAt;
    MatchAtIsThePattern(x, 0, MatchAt(x, 0).value.0, MatchAt(x, 0).value.1);
  }

  /** A piece that is copied. */
  lemma Copied(x: string, i: nat, n: nat, p: Json, f: Json -> string)
    requires i <= |x| && i <= n && Once(x, p, f) == x[..i] + Once(x[i..], p, f)
    requires SameOrTouched(x[i..], n - i, p, f)
    ensures SameOrTouched(x, n, p, f)
  {
    hide Once, Shown, Mentions;
    var y, k := x[i..], n - i;
    if pre, q, v :| Touches(y, k, pre, q, v, p, f) {
      MentionsSuffix(x, i, q);
      assert x[..i] + (pre + v) == (x[..i] + pre) + v;
      assert Touches(x, n, x[..i] + pre, q, v, p, f);
    } else {
      var a, b := if n <= |x| then n else |x|, if n <= |Once(x, p, f)| then n else |Once(x, p, f)|;
      assert x[..a] == x[..i] + y[..a - i];
      assert Once(x, p, f)[..b] == x[..i] + Once(y, p, f)[..b - i];
    }
  }

  lemma {:induction false} IsSameOrTouched(x: string, n: nat, p: Json, f: Json -> string)
    ensures SameOrTouched(x, n, p, f)
    decreases |x|
  {
    hide MatchAt, Shown, Mentions;
    if n == 0 || x == "" {
      assert x[..if n <= |x| then n else |x|] == "";
    } else if MatchAt(x, 0).None? {
      IsSameOrTouched(x[1..], n - 1, p, f);
      assert x[..1] == [x[0]];
      Copied(x, 1, n, p, f);
    } else {
      var m := MatchAt(x, 0).value;
      if Shown(p, m.1, f).Some? {
        MentionsFirst(x);
        assert "" + Shown(p, m.1, f).value == Shown(p, m.1, f).value;
        assert Touches(x, n, "", m.1, Shown(p, m.1, f).value, p, f);
      } else if n <= m.0 {
        assert x[..n] == x[..m.0][..n] == Once(x, p, f)[..n];
      } else {
        IsSameOrTouched(x[m.0..], n - m.0, p, f);
        Copied(x, m.0, n, p, f);
      }
    }
  }

  /** A match that starts within a placeholder at the start is that placeholder. */
  lemma StartsInPlaceholder(first: string, own: string, x: string, i: nat, j: nat, path: string)
    requires IsWhole(first, own) && first <= x && i < |first| && i <= j <= |x| && IsWhole(x[i..j], path)
    ensures i == 0 && j == |first| && path == own
  {
    hide IsWhole;
    Braces(first, own);
    Braces(x[i..j], path);
    var w := x[i..j];
    assert w[0] == x[i] == first[i] && w[1] == x[i + 1];
    assert i < 2 && x[2] == first[2] != '{';
    assert i != 1;
    assert x[..|first|] == first && x[..j] == w;
    StartIs(x, |first|, own);
    StartIs(x, j, path);
  }

  lemma ValueMeets(v: string, x: string, i: nat, j: nat)
    requires v <= x && i < |v| && i < j <= |x|
    ensures Meets(v, x[i..j], 0 - i)
  {
    assert forall k :: 0 <= k < j - i ==> x[i..j][k] == x[i + k];
  }

  lemma TouchedMeets(c: char, y: string, pre: string, v: string, j: nat)
    requires pre + v <= y && |pre| + 1 < j <= |y| + 1
    ensures Meets(v, ([c] + y)[..j], 1 + |pre|)
  {
    var w := ([c] + y)[..j];
    assert forall k :: 0 < k < j ==> w[k] == y[k - 1];
    assert forall k :: 0 <= k < |v| ==> y[|pre| + k] == (pre + v)[|pre| + k] == v[k];
  }

  /** A match that the first, literal character begins in the result was not there before: a value is part of it. */
  lemma LiteralIsTouched(t: string, j: nat, path: string, p: Json, f: Json -> string)
    requires t != "" && MatchAt(t, 0).None? && 0 < j <= |Once(t, p, f)| && IsWhole(Once(t, p, f)[..j], path)
    ensures Touched(t[1..], j - 1, p, f)
  {
    hide IsWhole, MatchAt, Shown, Touched;
    var rest := t[1..];
    var n, y := j - 1, Once(rest, p, f);
    OnceOfLiteral(t, p, f);
    IsSameOrTouched(rest, n, p, f);
    StartIs(t, j, path);
    assert t == [t[0]] + rest;
    assert ([t[0]] + y)[..j] == [t[0]] + y[..n];
    assert n <= |rest| ==> t[..j] == [t[0]] + rest[..n];
    assert rest[..if n <= |rest| then n else |rest|] == y[..n] ==> n <= |rest|;
  }

  ghost function PathsOf(t: string): iset<string> {
    iset q | Mentions(t, q)
  }

  lemma InertSuffix(t: string, i: nat, p: Json, f: Json -> string)
    requires Inert(PathsOf(t), p, f) && i <= |t|
    ensures Inert(PathsOf(t[i..]), p, f)
  {
    hide Shown, IsWhole, Meets, Mentions;
    forall q | q in PathsOf(t[i..]) ensures q in PathsOf(t) { MentionsSuffix(t, i, q); }
  }

  lemma InertMeans(t: string, q: string, v: string, w: string, path: string, d: int, p: Json, f: Json -> string)
    requires Inert(PathsOf(t), p, f) && Mentions(t, q) && Shown(p, q, f) == Some(v)
    requires IsWhole(w, path) && Meets(v, w, d)
    ensures Shown(p, path, f).GetOr(w) == w
  {
  }

  lemma LiteralBegins(t: string, j: nat, path: string, p: Json, f: Json -> string)
    requires t != "" && MatchAt(t, 0).None? && Inert(PathsOf(t), p, f)
    requires 0 < j <= |Once(t, p, f)| && IsWhole(Once(t, p, f)[..j], path)
    ensures Shown(p, path, f).GetOr(Once(t, p, f)[..j]) == Once(t, p, f)[..j]
  {
    hide IsWhole, MatchAt, Shown, Mentions, Meets, Inert, Once, Touches;
    LiteralIsTouched(t, j, path, p, f);
    OnceOfLiteral(t, p, f);
    var n, rest := j - 1, t[1..];
    var pre, q, v :| Touches(rest, n, pre, q, v, p, f);
    TouchesMeans(rest, n, pre, q, v, p, f);
    MentionsSuffix(t, 1, q);
    TouchedMeets(t[0], Once(rest, p, f), pre, v, j);
    InertMeans(t, q, v, Once(t, p, f)[..j], path, 1 + |pre|, p, f);
  }

  lemma TouchesMeans(x: string, n: nat, pre: string, q: string, v: string, p: Json, f: Json -> string)
    requires Touches(x, n, pre, q, v, p, f)
    ensures |pre| < n && Mentions(x, q) && Shown(p, q, f) == Some(v) && pre + v <= Once(x, p, f)
  {
  }

  lemma ValueBegins(t: string, v: string, i: nat, j: nat, path: string, p: Json, f: Json -> string)
    requires t != "" && MatchAt(t, 0).Some? && Inert(PathsOf(t), p, f)
    requires Shown(p, MatchAt(t, 0).value.1, f) == Some(v) && v <= Once(t, p, f)
    requires i < |v| && i < j <= |Once(t, p, f)| && IsWhole(Once(t, p, f)[i..j], path)
    ensures Shown(p, path, f).GetOr(Once(t, p, f)[i..j]) == Once(t, p, f)[i..j]
  {
    hide IsWhole, MatchAt, Shown, Mentions, Meets, Inert, Once;
    MentionsFirst(t);
    ValueMeets(v, Once(t, p, f), i, j);
    InertMeans(t, MatchAt(t, 0).value.1, v, Once(t, p, f)[i..j], path, 0 - i, p, f);
  }

  /** What the first piece can begin in the result. */
  lemma FirstPieceIsStable(t: string, i: nat, j: nat, path: string, p: Json, f: Json -> string)
    requires t != "" && Inert(PathsOf(t), p, f) && i < |FirstPiece(t, p, f)|
    requires i <= j <= |Once(t, p, f)| && IsWhole(Once(t, p, f)[i..j], path)
    ensures Shown(p, path, f).GetOr(Once(t, p, f)[i..j]) == Once(t, p, f)[i..j]
  {
    hide IsWhole, MatchAt, Shown, Inert;
    var x := Once(t, p, f);
    Braces(x[i..j], path);
    if MatchAt(t, 0).None? {
      assert x[..j] == x[i..j];
      LiteralBegins(t, j, path, p, f);
    } else {
      var m := MatchAt(t, 0).value;
      if Shown(p, m.1, f).Some? {
        ValueBegins(t, Shown(p, m.1, f).value, i, j, path, p, f);
      } else {
        StartIs(t, m.0, m.1);
        StartsInPlaceholder(t[..m.0], m.1, x, i, j, path);
      }
    }
  }

  /** What the first piece can begin shows itself, or nothing. */
  ghost predicate FirstIsStable(t: string, p: Json, f: Json -> string)
    requires t != ""
  {
    var x := Once(t, p, f);
    forall i: nat, j: nat, path :: i < |FirstPiece(t, p, f)| && i <= j <= |x| && IsWhole(x[i..j], path) ==>
      Shown(p, path, f).GetOr(x[i..j]) == x[i..j]
  }

  lemma StableByPieces(t: string, p: Json, f: Json -> string)
    requires t != "" && FirstIsStable(t, p, f) && Stable(Once(t[FirstLength(t)..], p, f), p, f)
    ensures Stable(Once(t, p, f), p, f)
  {
    hide IsWhole, Shown, Once, FirstPiece, FirstLength;
    OnceUnfolds(t, p, f);
    var x, n := Once(t, p, f), |FirstPiece(t, p, f)|;
    var y := Once(t[FirstLength(t)..], p, f);
    forall i: nat, j: nat, path | i <= j <= |x| && IsWhole(x[i..j], path) && Shown(p, path, f).Some?
      ensures Shown(p, path, f) == Some(x[i..j])
    {
      if i >= n {
        assert x[i..j] == y[i - n..j - n];
      } else {
        assert Shown(p, path, f).GetOr(x[i..j]) == x[i..j];
      }
    }
  }

  lemma EmptyIsStable(p: Json, f: Json -> string)
    ensures Stable("", p, f)
  {
    hide IsWhole;
    var x := "";
    forall i: nat, j: nat, path | i <= j <= |x| ensures !IsWhole(x[i..j], path) { OnlyBraced(x[i..j], path); }
  }

  lemma {:induction false} AfterIsStable(t: string, p: Json, f: Json -> string)
    requires Inert(PathsOf(t), p, f)
    ensures Stable(Once(t, p, f), p, f)
    decreases |t|
  {
    if t == "" {
      EmptyIsStable(p, f);
    } else {
      hide IsWhole, MatchAt, Shown, Inert, Stable, Once, FirstPiece, FirstLength;
      var x := Once(t, p, f);
      InertSuffix(t, FirstLength(t), p, f);
      AfterIsStable(t[FirstLength(t)..], p, f);
      forall i: nat, j: nat, path | i < |FirstPiece(t, p, f)| && i <= j <= |x| && IsWhole(x[i..j], path)
        ensures Shown(p, path, f).GetOr(x[i..j]) == x[i..j]
      {
        FirstPieceIsStable(t, i, j, path, p, f);
      }
      StableByPieces(t, p, f);
    }
  }

  /**
   For one template and payload: if no value shown for a path of the template is, or
   could be part of, a placeholder that shows something other than its own text, then
   a second interpolation changes nothing.
   */
  lemma SecondPassIsIdentity(t: string, p: Json, f: Json -> string)
    requires Inert(PathsOf(t), p, f)
    ensures Interpolate(Interpolate(t, p, f), p, f) == Interpolate(t, p, f)
  {
    InterpolateIsOnce(t, p, f);
    InterpolateIsOnce(Once(t, p, f), p, f);
    AfterIsStable(t, p, f);
    StableIsKept(Once(t, p, f), p, f);
  }

  /* ------------------------------------------- a check on the braces alone */

  /** No two left braces stand next to each other outside the placeholders of t. */
  predicate NoLoosePair(t: string)
    decreases |t|
  {
    if t == "" then true
    else
      match MatchAt(t, 0)
      case Some(m) => NoLoosePair(t[m.0..])
      case None => !(|t| >= 2 && t[0] == '{' && t[1] == '{' && MatchAt(t[1..], 0).None?) && NoLoosePair(t[1..])
  }

  /** What the template's placeholders show is not empty and has no left brace. */
  ghost predicate ShowsPlain(t: string, p: Json, f: Json -> string) {
    forall q :: Mentions(t, q) && Shown(p, q, f).Some? ==> Shown(p, q, f).value != "" && '{' !in Shown(p, q, f).value
  }

  lemma PlainSuffix(t: string, i: nat, p: Json, f: Json -> string)
    requires ShowsPlain(t, p, f) && i <= |t|
    ensures ShowsPlain(t[i..], p, f)
  {
    hide Mentions, Shown;
    forall q | Mentions(t[i..], q) ensures Mentions(t, q) { MentionsSuffix(t, i, q); }
  }

  /**
   A result starts with one left brace only where its text does, and with two only where it starts
   with a placeholder.
   */
  lemma PlainStart(t: string, p: Json, f: Json -> string)
    requires t != "" && ShowsPlain(t, p, f)
    ensures
      var x := Once(t, p, f);
      x != "" && (x[0] == '{' ==>
        if MatchAt(t, 0).Some? then |x| >= 5 && x[0] == x[1] == '{' && x[2] != '{' else t[0] == '{')
  {
    hide Shown, Mentions, MatchAt, IsWhole;
    if MatchAt(t, 0).Some? {
      var m := MatchAt(t, 0).value;
      MentionsFirst(t);
      StartIs(t, m.0, m.1);
      Braces(t[..m.0], m.1);
    }
  }

  lemma LiteralBeginsNothing(t: string, p: Json, f: Json -> string)
    requires t != "" && MatchAt(t, 0).None? && ShowsPlain(t, p, f) && NoLoosePair(t)
    ensures var x := Once(t, p, f); |x| >= 3 ==> !(x[0] == '{' && x[1] == '{' && x[2] != '{')
  {
    hide Shown, Mentions, MatchAt;
    OnceOfLiteral(t, p, f);
    PlainSuffix(t, 1, p, f);
    if t[1..] != "" { PlainStart(t[1..], p, f); }
  }

  lemma NoLooseRest(t: string)
    requires t != "" && NoLoosePair(t)
    ensures NoLoosePair(t[FirstLength(t)..])
  {
    hide MatchAt;
  }

  lemma {:induction false} PlainIsStable(t: string, p: Json, f: Json -> string)
    requires ShowsPlain(t, p, f) && NoLoosePair(t)
    ensures Stable(Once(t, p, f), p, f)
    decreases |t|
  {
    if t == "" {
      EmptyIsStable(p, f);
    } else {
      hide IsWhole, MatchAt, Shown, ShowsPlain, NoLoosePair, Stable, Once, FirstPiece, FirstLength;
      var x := Once(t, p, f);
      PlainSuffix(t, FirstLength(t), p, f);
      NoLooseRest(t);
      PlainIsStable(t[FirstLength(t)..], p, f);
      forall i: nat, j: nat, path | i < |FirstPiece(t, p, f)| && i <= j <= |x| && IsWhole(x[i..j], path)
        ensures Shown(p, path, f).GetOr(x[i..j]) == x[i..j]
      {
        PlainPiece(t, i, j, path, p, f);
      }
      StableByPieces(t, p, f);
    }
  }

  lemma PlainFirst(t: string, p: Json, f: Json -> string)
    requires t != "" && ShowsPlain(t, p, f)
    ensures MatchAt(t, 0).Some? && Shown(p, MatchAt(t, 0).value.1, f).Some? ==> '{' !in FirstPiece(t, p, f)
  {
    hide Shown, Mentions, MatchAt;
    if MatchAt(t, 0).Some? { MentionsFirst(t); }
  }

  /** The first piece begins a match only if it is a placeholder that shows nothing. */
  lemma PlainPiece(t: string, i: nat, j: nat, path: string, p: Json, f: Json -> string)
    requires t != "" && ShowsPlain(t, p, f) && NoLoosePair(t) && i < |FirstPiece(t, p, f)|
    requires i <= j <= |Once(t, p, f)| && IsWhole(Once(t, p, f)[i..j], path)
    ensures Shown(p, path, f).None?
  {
    hide IsWhole, Shown, Mentions, MatchAt, NoLoosePair;
    var x, piece := Once(t, p, f), FirstPiece(t, p, f);
    var w := x[i..j];
    PlainFirst(t, p, f);
    Braces(w, path);
    assert w[0] == x[i] == piece[i] && w[1] == x[i + 1] && w[2] == x[i + 2];
    if MatchAt(t, 0).None? {
      LiteralBeginsNothing(t, p, f);
    } else {
      var m := MatchAt(t, 0).value;
      StartIs(t, m.0, m.1);
      if Shown(p, m.1, f).None? { StartsInPlaceholder(t[..m.0], m.1, x, i, j, path); }
    }
  }

  /**
   What a caller can see at a glance: with plain values and no loose pair of braces, a second pass
   changes nothing.
   */
  lemma PlainSecondPass(t: string, p: Json, f: Json -> string)
    requires ShowsPlain(t, p, f) && NoLoosePair(t)
    ensures Interpolate(Interpolate(t, p, f), p, f) == Interpolate(t, p, f)
  {
    InterpolateIsOnce(t, p, f);
    InterpolateIsOnce(Once(t, p, f), p, f);
    PlainIsStable(t, p, f);
    StableIsKept(Once(t, p, f), p, f);
  }

  /* ------------------------------------------ one payload, all templates: exact */

  /** No placeholder begins in x and ends in y. */
  ghost predicate NoStraddle(x: string, y: string) {
    forall i: nat, j: nat, path :: i < |x| < j <= |x + y| ==> !IsWhole((x + y)[i..j], path)
  }

  lemma NoStraddleSuffix(x: string, y: string, n: nat)
    requires NoStraddle(x, y) && n <= |x|
    ensures NoStraddle(x[n..], y) && (x + y)[n..] == x[n..] + y
  {
    hide IsWhole;
    forall i: nat, j: nat, path | i < |x[n..]| < j <= |x[n..] + y| ensures !IsWhole((x[n..] + y)[i..j], path) {
      assert (x[n..] + y)[i..j] == (x + y)[n + i..n + j];
    }
  }

  lemma SameStart(x: string, y: string)
    requires NoStraddle(x, y) && x != ""
    ensures MatchAt(x + y, 0) == MatchAt(x, 0)
  {
    hide IsWhole, MatchAt;
    var t := x + y;
    if MatchAt(x, 0).Some? {
      var m := MatchAt(x, 0).value;
      StartIs(x, m.0, m.1);
      assert t[..m.0] == x[..m.0];
      StartIs(t, m.0, m.1);
    } else if MatchAt(t, 0).Some? {
      var m := MatchAt(t, 0).value;
      StartIs(t, m.0, m.1);
      assert t[0..m.0] == t[..m.0];
      assert m.0 <= |x|;
      assert t[..m.0] == x[..m.0];
      StartIs(x, m.0, m.1);
    }
  }

  lemma Associates(a: string, b: string, c: string)
    ensures a + (b + c) == a + b + c
  {
  }

  lemma OnceOfNothing(p: Json, f: Json -> string)
    ensures Once("", p, f) == ""
  {
  }

  /** What a second pass makes of a result that is kept text, a placeholder, and more text. */
  lemma PlaceholderInResult(x: string, w: string, path: string, z: string, t: string, p: Json, f: Json -> string)
    requires IsWhole(w, path) && Shown(p, path, f).GetOr(w) != w && Once(t, p, f) == x + w + z
    requires Once(x, p, f) == x && Once(z, p, f) == z
    ensures Changes(t, p, f)
  {
    hide IsWhole, Shown, Once;
    var shown := Shown(p, path, f).GetOr(w);
    AroundPlaceholder(x, w, path, z, p, f);
    Cancel(x, shown, w, z);
  }

  lemma Cancel(x: string, a: string, b: string, z: string)
    ensures x + a + z == x + b + z ==> a == b
  {
    if x + a + z == x + b + z {
      assert |a| == |b|;
      assert (x + a + z)[|x|..|x| + |a|] == a && (x + b + z)[|x|..|x| + |b|] == b;
    }
  }

  lemma SameFirst(x: string, y: string, p: Json, f: Json -> string)
    requires NoStraddle(x, y) && x != ""
    ensures FirstLength(x + y) == FirstLength(x) && FirstPiece(x + y, p, f) == FirstPiece(x, p, f)
  {
    hide MatchAt, Shown, NoStraddle;
    SameStart(x, y);
    var n := FirstLength(x);
    assert (x + y)[..n] == x[..n];
  }

  lemma {:induction false} OnceSplits(x: string, y: string, p: Json, f: Json -> string)
    requires NoStraddle(x, y)
    ensures Once(x + y, p, f) == Once(x, p, f) + Once(y, p, f)
    decreases |x|
  {
    if x == "" {
      assert x + y == y;
    } else {
      hide NoStraddle, Once, FirstPiece, FirstLength;
      SameFirst(x, y, p, f);
      NoStraddleSuffix(x, y, FirstLength(x));
      OnceSplits(x[FirstLength(x)..], y, p, f);
      OnceUnfolds(x + y, p, f);
      OnceUnfolds(x, p, f);
      Associates(FirstPiece(x, p, f), Once(x[FirstLength(x)..], p, f), Once(y, p, f));
    }
  }

  /** Nothing straddles the start of two braces, or of a single brace at the end. */
  lemma BracesSplit(x: string, y: string)
    requires y != "" && y[0] == '{' && (|y| > 1 ==> y[1] == '{')
    ensures NoStraddle(x, y)
  {
    var t := x + y;
    hide IsWhole;
    forall i: nat, j: nat, path | i < |x| < j <= |t| ensures !IsWhole(t[i..j], path) {
      OnlyBraced(t[i..j], path);
      var k, w := |x| - i, t[i..j];
      assert w[k] == t[|x|] == y[0];
      assert k + 1 < |w| ==> w[k + 1] == t[|x| + 1] && t[|x| + 1] == y[1];
    }
  }

  lemma AroundPlaceholder(x: string, w: string, path: string, y: string, p: Json, f: Json -> string)
    requires IsWhole(w, path)
    ensures Once(x + w + y, p, f) == Once(x, p, f) + Shown(p, path, f).GetOr(w) + Once(y, p, f)
  {
    hide IsWhole;
    Braces(w, path);
    BracesSplit(x, w + y);
    OnceSplits(x, w + y, p, f);
    assert x + w + y == x + (w + y);
    OnceOfPlaceholder(w, path, y, p, f);
  }

  /** A beginning of a placeholder, short of all of it, has no match. */
  lemma PrefixIsKept(w: string, path: string, n: nat, p: Json, f: Json -> string)
    requires IsWhole(w, path) && n < |w|
    ensures Once(w[..n], p, f) == w[..n]
  {
    hide IsWhole;
    Braces(w, path);
    var x := w[..n];
    forall i: nat, j: nat, own | i <= j <= |x| ensures !IsWhole(x[i..j], own) {
      OnlyBraced(x[i..j], own);
      assert j - i >= 5 ==> x[i..j][1] == w[i + 1] && x[i..j][j - i - 2] == w[j - 2];
    }
    StableIsKept(x, p, f);
  }

  /** Nor does an end of it; and none begins there, whatever follows. */
  lemma SuffixIsKept(w: string, path: string, n: nat, p: Json, f: Json -> string)
    requires IsWhole(w, path) && 0 < n <= |w|
    ensures Once(w[n..], p, f) == w[n..]
    ensures n < |w| ==> forall z :: NoStraddle(w[n..], z)
  {
    hide IsWhole;
    Braces(w, path);
    var x := w[n..];
    forall i: nat, j: nat, own | i <= j <= |x| ensures !IsWhole(x[i..j], own) {
      OnlyBraced(x[i..j], own);
      assert j - i >= 5 ==> x[i..j][1] == w[n + i + 1];
    }
    StableIsKept(x, p, f);
    if n < |w| {
      forall z ensures NoStraddle(x, z) { EndBeginsNothing(w, path, n, z); }
    }
  }

  lemma EndBeginsNothing(w: string, path: string, n: nat, z: string)
    requires IsWhole(w, path) && 0 < n < |w|
    ensures NoStraddle(w[n..], z)
  {
    hide IsWhole;
    Braces(w, path);
    var x := w[n..];
    forall i: nat, j: nat, own | i < |x| < j <= |x + z| ensures !IsWhole((x + z)[i..j], own) {
      var m := (x + z)[i..j];
      OnlyBraced(m, own);
      assert m[0] == x[i] == w[n + i];
      assert i + 1 < |x| ==> m[1] == w[n + i + 1];
    }
  }

  predicate IsPathText(q: string) {
    q != "" && All(q, 0, |q|, IsPathChar)
  }

  ghost function AllPaths(): iset<string> {
    iset q | IsPathText(q)
  }

  /** The placeholder of a path, without spaces. */
  function HoleOf(q: string): string {
    "{{" + q + "}}"
  }

  lemma HoleIsWhole(q: string)
    requires IsPathText(q)
    ensures IsWhole(HoleOf(q), q)
  {
    var h := HoleOf(q);
    assert h[2..2 + |q|] == q;
    assert forall k :: 2 <= k < 2 + |q| ==> h[k] == q[k - 2];
    assert Shape(h, 0, 2, 2 + |q|, |h|);
  }

  /** A template that a second pass changes. */
  ghost predicate Changes(t: string, p: Json, f: Json -> string) {
    Once(Once(t, p, f), p, f) != Once(t, p, f)
  }

  /** A value between kept text, and what it becomes. */
  lemma ValueBetween(a: string, q: string, v: string, b: string, p: Json, f: Json -> string) returns (t: string)
    requires IsPathText(q) && Shown(p, q, f) == Some(v) && Once(a, p, f) == a && Once(b, p, f) == b
    ensures Once(t, p, f) == a + v + b
  {
    HoleIsWhole(q);
    t := a + HoleOf(q) + b;
    AroundPlaceholder(a, HoleOf(q), q, b, p, f);
  }

  lemma ValueAlone(q: string, v: string, p: Json, f: Json -> string) returns (t: string)
    requires IsPathText(q) && Shown(p, q, f) == Some(v)
    ensures Once(t, p, f) == v
  {
    t := ValueBetween("", q, v, "", p, f);
    assert "" + v + "" == v;
  }

  /** The value is a part of the placeholder: the rest of it is put around. */
  lemma ChangesInside(q: string, w: string, path: string, d: nat, e: nat, p: Json, f: Json -> string)
      returns (t: string)
    requires d <= e <= |w| && d < |w| && 0 < e && IsPathText(q) && Shown(p, q, f) == Some(w[d..e])
    requires IsWhole(w, path) && Shown(p, path, f).GetOr(w) != w
    ensures Changes(t, p, f)
  {
    hide IsWhole, Shown, Once, Changes;
    PrefixIsKept(w, path, d, p, f);
    SuffixIsKept(w, path, e, p, f);
    t := ValueBetween(w[..d], q, w[d..e], w[e..], p, f);
    assert w[..d] + w[d..e] + w[e..] == w;
    OnceOfNothing(p, f);
    assert "" + w + "" == w;
    PlaceholderInResult("", w, path, "", t, p, f);
  }

  lemma JoinedAgain(x: string, y: string, z: string)
    ensures "" + (x + y) + z == x + (y + z) + ""
    ensures x + (y + z) + "" == "" + (x + y) + z
  {
  }

  lemma SplitDiffers(x: string, y: string, t: string, p: Json, f: Json -> string)
    requires NoStraddle(x, y) && Once(t, p, f) == x + y
    requires (Once(x, p, f) != x && Once(y, p, f) == y) || (Once(x, p, f) == x && Once(y, p, f) != y)
    ensures Changes(t, p, f)
  {
    hide Once, NoStraddle;
    OnceSplits(x, y, p, f);
    if Once(y, p, f) == y {
      Cancel("", Once(x, p, f), x, y);
      assert "" + Once(x, p, f) + y == Once(x, p, f) + y && "" + x + y == x + y;
    } else {
      Cancel(x, Once(y, p, f), y, "");
      assert x + Once(y, p, f) + "" == x + Once(y, p, f) && x + y + "" == x + y;
    }
  }

  /** The value ends with a beginning of the placeholder. */
  lemma ChangesBefore(q: string, x: string, w: string, path: string, m: nat, p: Json, f: Json -> string)
      returns (t: string)
    requires 0 < m < |w| && IsPathText(q) && Shown(p, q, f) == Some(x + w[..m])
    requires IsWhole(w, path) && Shown(p, path, f).GetOr(w) != w
    ensures Changes(t, p, f)
  {
    hide IsWhole, Shown, Once, Changes, NoStraddle;
    PrefixIsKept(w, path, m, p, f);
    if Once(x, p, f) != x {
      Braces(w, path);
      BracesSplit(x, w[..m]);
      t := ValueAlone(q, x + w[..m], p, f);
      SplitDiffers(x, w[..m], t, p, f);
    } else {
      OnceOfNothing(p, f);
      SuffixIsKept(w, path, m, p, f);
      t := ValueBetween("", q, x + w[..m], w[m..], p, f);
      JoinedAgain(x, w[..m], w[m..]);
      assert w[..m] + w[m..] == w;
      PlaceholderInResult(x, w, path, "", t, p, f);
    }
  }

  /** The value begins with an end of the placeholder. */
  lemma ChangesAfter(q: string, w: string, path: string, d: nat, z: string, p: Json, f: Json -> string)
      returns (t: string)
    requires 0 < d < |w| && IsPathText(q) && Shown(p, q, f) == Some(w[d..] + z)
    requires IsWhole(w, path) && Shown(p, path, f).GetOr(w) != w
    ensures Changes(t, p, f)
  {
    hide IsWhole, Shown, Once, Changes, NoStraddle;
    SuffixIsKept(w, path, d, p, f);
    if Once(z, p, f) != z {
      t := ValueAlone(q, w[d..] + z, p, f);
      SplitDiffers(w[d..], z, t, p, f);
    } else {
      OnceOfNothing(p, f);
      PrefixIsKept(w, path, d, p, f);
      t := ValueBetween(w[..d], q, w[d..] + z, "", p, f);
      JoinedAgain(w[..d], w[d..], z);
      assert w[..d] + w[d..] == w;
      PlaceholderInResult("", w, path, z, t, p, f);
    }
  }

  lemma StartBefore(x: string, w: string, path: string, z: string)
    requires x != "" && IsWhole(w, path)
    ensures FirstLength(x + w + z) == FirstLength(x)
  {
    hide IsWhole;
    Braces(w, path);
    BracesSplit(x, w + z);
    SameStart(x, w + z);
    assert x + w + z == x + (w + z);
  }

  /** What is not copied is a placeholder that shows something. */
  lemma FirstPlaceholder(u: string, p: Json, f: Json -> string) returns (path: string)
    requires u != "" && FirstPiece(u, p, f) != u[..FirstLength(u)]
    ensures IsWhole(u[..FirstLength(u)], path) && Shown(p, path, f) == Some(FirstPiece(u, p, f))
  {
    hide IsWhole, MatchAt, Shown;
    assert u[..1] == [u[0]];
    path := MatchAt(u, 0).value.1;
    StartIs(u, MatchAt(u, 0).value.0, path);
  }

  /** An empty value is a part of any placeholder. */
  lemma ChangesByNothing(w: string, path: string, p: Json, f: Json -> string) returns (t: string)
    requires IsWhole(w, path) && Shown(p, path, f) == Some("")
    ensures Changes(t, p, f)
  {
    hide IsWhole, Shown, Once, Changes;
    Braces(w, path);
    assert w[1..1] == "";
    t := ChangesInside(path, w, path, 1, 1, p, f);
  }

  /** A placeholder at the start of a text that is its own result shows a beginning of itself, or starts with itself. */
  lemma ChangesAtStart(w: string, path: string, shown: string, after: string, z: string, p: Json, f: Json -> string)
    returns (t: string)
    requires IsWhole(w, path) && Shown(p, path, f) == Some(shown) && shown != w && shown + after == w + z
    ensures Changes(t, p, f)
  {
    hide IsWhole, Shown, Once;
    Braces(w, path);
    if shown == "" {
      t := ChangesByNothing(w, path, p, f);
    } else if |shown| <= |w| {
      assert (shown + after)[..|shown|] == shown && (w + z)[..|shown|] == w[0..|shown|];
      t := ChangesInside(path, w, path, 0, |shown|, p, f);
    } else {
      assert (shown + after)[..|w|] == shown[..|w|] && (w + z)[..|w|] == w;
      var s := shown[|w|..];
      assert shown == w + s;
      OnceOfPlaceholder(w, path, s, p, f);
      if Once(s, p, f) != "" {
        t := ValueAlone(path, shown, p, f);
        assert |shown + Once(s, p, f)| != |shown|;
      } else {
        OnceUnfolds(s, p, f);
        assert FirstPiece(s, p, f) == "" != s[..FirstLength(s)];
        var own := FirstPlaceholder(s, p, f);
        t := ChangesByNothing(s[..FirstLength(s)], own, p, f);
      }
    }
  }

  /**
   The placeholder is a part of a value that a second pass leaves alone: then its
   own value, or an empty one, is a part of a placeholder.
   */
  lemma {:induction false} ChangesWithin(x: string, w: string, path: string, z: string, p: Json, f: Json -> string)
    returns (t: string)
    requires IsWhole(w, path) && Shown(p, path, f).GetOr(w) != w && Once(x + w + z, p, f) == x + w + z
    ensures Changes(t, p, f)
    decreases |x|
  {
    hide IsWhole, Shown, Once, Changes, FirstPiece, FirstLength;
    var u := x + w + z;
    if x == "" {
      assert u == w + z;
      OnceOfPlaceholder(w, path, z, p, f);
      t := ChangesAtStart(w, path, Shown(p, path, f).value, Once(z, p, f), z, p, f);
    } else {
      OnceUnfolds(u, p, f);
      StartBefore(x, w, path, z);
      var n := FirstLength(x);
      assert u[n..] == x[n..] + w + z;
      if FirstPiece(u, p, f) == u[..n] {
        assert u == u[..n] + u[n..];
        t := ChangesWithin(x[n..], w, path, z, p, f);
      } else {
        var own := FirstPlaceholder(u, p, f);
        t := ChangesAtStart(u[..n], own, FirstPiece(u, p, f), Once(u[n..], p, f), u[n..], p, f);
      }
    }
  }

  lemma MeetsWithin(v: string, w: string, d: nat)
    requires Meets(v, w, d) && d + |v| <= |w|
    ensures v == w[d..d + |v|] && d < |w| && 0 < d + |v|
  {
  }

  lemma MeetsBefore(v: string, w: string, d: int) returns (x: string, m: nat)
    requires Meets(v, w, d) && d < 0 && d + |v| < |w|
    ensures 0 < m < |w| && v == x + w[..m]
  {
    x, m := v[..-d], d + |v|;
  }

  lemma MeetsAfter(v: string, w: string, d: nat) returns (z: string)
    requires Meets(v, w, d) && 0 < d && |w| < d + |v|
    ensures d < |w| && v == w[d..] + z
  {
    z := v[|w| - d..];
  }

  lemma MeetsAround(v: string, w: string, d: int) returns (x: string, z: string)
    requires Meets(v, w, d) && d <= 0 && |w| <= d + |v|
    ensures v == x + w + z
  {
    x, z := v[..-d], v[|w| - d..];
  }

  /** Wherever a shown value meets a placeholder that shows something else, some template changes again. */
  lemma MeetingChanges(q: string, v: string, w: string, path: string, d: int, p: Json, f: Json -> string)
      returns (t: string)
    requires IsPathText(q) && Shown(p, q, f) == Some(v) && IsWhole(w, path)
    requires Meets(v, w, d) && Shown(p, path, f).GetOr(w) != w
    ensures Changes(t, p, f)
  {
    hide Meets, IsWhole, Shown, Once, Changes, IsPathText;
    if 0 <= d && d + |v| <= |w| {
      MeetsWithin(v, w, d);
      t := ChangesInside(q, w, path, d, d + |v|, p, f);
    } else if d < 0 && d + |v| < |w| {
      var x, m := MeetsBefore(v, w, d);
      t := ChangesBefore(q, x, w, path, m, p, f);
    } else if 0 < d {
      var z := MeetsAfter(v, w, d);
      t := ChangesAfter(q, w, path, d, z, p, f);
    } else if Once(v, p, f) == v {
      var x, z := MeetsAround(v, w, d);
      t := ChangesWithin(x, w, path, z, p, f);
    } else {
      t := ValueAlone(q, v, p, f);
      SecondOf(t, v, p, f);
    }
  }

  lemma SecondOf(t: string, v: string, p: Json, f: Json -> string)
    requires Once(t, p, f) == v && Once(v, p, f) != v
    ensures Changes(t, p, f)
  {
  }

  /**
   For one payload: interpolating twice is interpolating once, on every template, if
   and only if no value it shows is, or could be part of, a placeholder that shows
   something other than its own text.
   */
  lemma IdempotentIff(p: Json, f: Json -> string)
    ensures
      Inert(AllPaths(), p, f) <==>
        forall t :: Interpolate(Interpolate(t, p, f), p, f) == Interpolate(t, p, f)
  {
    hide Shown, IsWhole, Meets, Interpolate, IsPathText;
    var paths := AllPaths();
    if Inert(paths, p, f) {
      forall t ensures Interpolate(Interpolate(t, p, f), p, f) == Interpolate(t, p, f) {
        MentionedPaths(t, p, f);
        SecondPassIsIdentity(t, p, f);
      }
    } else {
      var q, v, w, path, d :| q in paths && Shown(p, q, f) == Some(v) && IsWhole(w, path) && Meets(v, w, d)
        && Shown(p, path, f).GetOr(w) != w;
      var t := MeetingChanges(q, v, w, path, d, p, f);
      InterpolateIsOnce(t, p, f);
      InterpolateIsOnce(Once(t, p, f), p, f);
    }
  }

  lemma MentionedPaths(t: string, p: Json, f: Json -> string)
    requires Inert(AllPaths(), p, f)
    ensures Inert(PathsOf(t), p, f)
  {
    hide Shown, IsWhole, Meets;
    forall q | q in PathsOf(t) ensures IsPathText(q) {
      var i: nat, j: nat :| IsPlaceholder(t, i, j, q);
      StartInside(t, i, j, q);
      PlaceholderAt(t, i, j, q);
      Braces(t[i..j], q);
    }
  }
}
