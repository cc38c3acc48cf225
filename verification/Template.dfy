/**
 `{{path.to.value}}` templates. `interpolate` replaces every match of

     \{\{ \s* ([\w.]+) \s* \}\}

 (global, leftmost first, non-overlapping). IsPlaceholder says what a match of
 that pattern is and Leftmost what the set of replaced matches is; Scan is the
 one-pass reading of the template, proved to be the only list of segments that
 satisfies Leftmost.
 */
module Template {
  import opened Options
  import opened Json

  datatype Segment = Literal(text: string) | Hole(text: string, path: string)

  predicate IsSpace(c: char) {
    c in " \t\n\r" || c as int in {0x0B, 0x0C, 0xA0, 0x1680, 0x2028, 0x2029, 0x202F, 0x205F, 0x3000, 0xFEFF}
    || 0x2000 <= c as int <= 0x200A
  }

  predicate IsPathChar(c: char) {
    'a' <= c <= 'z' || 'A' <= c <= 'Z' || '0' <= c <= '9' || c == '_' || c == '.'
  }

  /** `\w` and the dot, by code point: ASCII digits, capitals, underscore and small letters. */
  lemma PathCharsAre(c: char)
    ensures
      var n := c as int;
      IsPathChar(c) <==> n == 46 || 48 <= n <= 57 || 65 <= n <= 90 || n == 95 || 97 <= n <= 122
  {
  }

  /** `\s`: the white space and line terminators of ECMAScript, by code point. */
  lemma SpacesAre(c: char)
    ensures IsSpace(c) <==>
      c as int in {9, 10, 11, 12, 13, 32, 160, 5760, 8192, 8193, 8194, 8195, 8196, 8197, 8198, 8199, 8200, 8201, 8202,
                   8232, 8233, 8239, 8287, 12288, 65279}
  {
    assert " \t\n\r"[0] == 32 as char && " \t\n\r"[1] == 9 as char;
    assert " \t\n\r"[2] == 10 as char && " \t\n\r"[3] == 13 as char;
  }

  /* ---------------------------------------------------------------- pattern */

  /** All characters of t[i..j] satisfy p. */
  predicate All(t: string, i: nat, j: nat, p: char -> bool)
    requires i <= j <= |t|
  {
    forall k :: i <= k < j ==> p(t[k])
  }

  /** t[i..j] matches the placeholder pattern with the path at t[a..b]. */
  predicate Shape(t: string, i: nat, a: nat, b: nat, j: nat) {
    && i + 2 <= a < b && b + 2 <= j <= |t|
    && t[i] == '{' && t[i + 1] == '{'
    && All(t, i + 2, a, IsSpace)
    && All(t, a, b, IsPathChar)
    && All(t, b, j - 2, IsSpace)
    && t[j - 2] == '}' && t[j - 1] == '}'
  }

  /** The pattern matches t[i..j], capturing `path`. */
  ghost predicate IsPlaceholder(t: string, i: nat, j: nat, path: string) {
    exists a: nat, b: nat :: Shape(t, i, a, b, j) && path == t[a..b]
  }

  ghost predicate NoPlaceholder(t: string, i: nat) {
    forall j: nat, path :: !IsPlaceholder(t, i, j, path)
  }

  /** First position from i on whose character does not satisfy p. */
  function Skip(t: string, i: nat, p: char -> bool): (j: nat)
    requires i <= |t|
    ensures i <= j <= |t| && All(t, i, j, p) && (j < |t| ==> !p(t[j]))
    decreases |t| - i
  {
    if i < |t| && p(t[i]) then Skip(t, i + 1, p) else i
  }

  /** A match starting at i, if there is one: its end and its path. */
  function MatchAt(t: string, i: nat): (m: Option<(nat, string)>)
    requires i <= |t|
    ensures m.Some? ==> i + 5 <= m.value.0 <= |t|
  {
    if i + 2 <= |t| && t[i] == '{' && t[i + 1] == '{' then
      var a := Skip(t, i + 2, IsSpace);
      var b := Skip(t, a, IsPathChar);
      var c := Skip(t, b, IsSpace);
      if a < b && c + 2 <= |t| && t[c] == '}' && t[c + 1] == '}' then Some((c + 2, t[a..b])) else None
    else
      None
  }

  lemma {:induction false} SkipIs(t: string, i: nat, j: nat, p: char -> bool)
    requires i <= j < |t| && All(t, i, j, p) && !p(t[j])
    ensures Skip(t, i, p) == j
    decreases j - i
  {
    if i < j { SkipIs(t, i + 1, j, p); }
  }

  /** A shape at i leaves MatchAt no choice: the three character classes are disjoint. */
  lemma ShapeIsMatched(t: string, i: nat, a: nat, b: nat, j: nat)
    requires Shape(t, i, a, b, j)
    ensures MatchAt(t, i) == Some((j, t[a..b]))
  {
    assert IsPathChar(t[a]) && !IsSpace(t[a]);
    SkipIs(t, i + 2, a, IsSpace);
    assert !IsPathChar(t[b]) by {
      if b < j - 2 { assert IsSpace(t[b]); }
    }
    SkipIs(t, a, b, IsPathChar);
    SkipIs(t, b, j - 2, IsSpace);
  }

  /** MatchAt decides the pattern: it finds a match exactly when there is one. */
  lemma MatchAtIsThePattern(t: string, i: nat, j: nat, path: string)
    requires i <= |t|
    ensures MatchAt(t, i) == Some((j, path)) <==> IsPlaceholder(t, i, j, path)
  {
    if IsPlaceholder(t, i, j, path) {
      var a: nat, b: nat :| Shape(t, i, a, b, j) && path == t[a..b];
      ShapeIsMatched(t, i, a, b, j);
    }
    if MatchAt(t, i) == Some((j, path)) {
      var a := Skip(t, i + 2, IsSpace);
      var b := Skip(t, a, IsPathChar);
      assert Shape(t, i, a, b, j) && path == t[a..b];
    }
  }

  /* ------------------------------------------------------ leftmost matching */

  function Text(segments: seq<Segment>): string {
    if segments == [] then "" else segments[0].text + Text(segments[1..])
  }

  /**
   `segments` cut t[i..] into the replaced matches and single characters left
   alone: a hole is a match, and a character is left alone only where no match
   begins. That is what "leftmost, non-overlapping" means.
   */
  ghost predicate Leftmost(t: string, i: nat, segments: seq<Segment>)
    decreases |segments|
  {
    if segments == [] then i == |t|
    else if segments[0].Hole? then
      && IsPlaceholder(t, i, i + |segments[0].text|, segments[0].path)
      && segments[0].text == t[i..i + |segments[0].text|]
      && Leftmost(t, i + |segments[0].text|, segments[1..])
    else
      && i < |t| && segments[0].text == [t[i]]
      && NoPlaceholder(t, i)
      && Leftmost(t, i + 1, segments[1..])
  }

  /** One pass over the template. */
  function Scan(t: string, i: nat): (segments: seq<Segment>)
    requires i <= |t|
    decreases |t| - i
  {
    if i == |t| then []
    else
      match MatchAt(t, i)
      case Some(m) => [Hole(t[i..m.0], m.1)] + Scan(t, m.0)
      case None => [Literal([t[i]])] + Scan(t, i + 1)
  }

  lemma NoMatchNoPlaceholder(t: string, i: nat)
    requires i <= |t|
    ensures MatchAt(t, i).None? <==> NoPlaceholder(t, i)
  {
    if MatchAt(t, i).None? {
      forall j: nat, path ensures !IsPlaceholder(t, i, j, path) { MatchAtIsThePattern(t, i, j, path); }
    } else {
      MatchAtIsThePattern(t, i, MatchAt(t, i).value.0, MatchAt(t, i).value.1);
    }
  }

  lemma LeftmostHole(t: string, i: nat, j: nat, path: string, rest: seq<Segment>)
    requires i <= j <= |t| && IsPlaceholder(t, i, j, path) && Leftmost(t, j, rest)
    ensures Leftmost(t, i, [Hole(t[i..j], path)] + rest)
  {
    var first := Hole(t[i..j], path);
    assert i + |first.text| == j && ([first] + rest)[1..] == rest;
  }

  lemma LeftmostLiteral(t: string, i: nat, rest: seq<Segment>)
    requires i < |t| && NoPlaceholder(t, i) && Leftmost(t, i + 1, rest)
    ensures Leftmost(t, i, [Literal([t[i]])] + rest)
  {
    assert ([Literal([t[i]])] + rest)[1..] == rest;
  }

  lemma {:induction false} ScanIsLeftmost(t: string, i: nat)
    requires i <= |t|
    ensures Leftmost(t, i, Scan(t, i))
    decreases |t| - i
  {
    if i < |t| {
      var m := MatchAt(t, i);
      if m.Some? {
        MatchAtIsThePattern(t, i, m.value.0, m.value.1);
        ScanIsLeftmost(t, m.value.0);
        LeftmostHole(t, i, m.value.0, m.value.1, Scan(t, m.value.0));
      } else {
        NoMatchNoPlaceholder(t, i);
        ScanIsLeftmost(t, i + 1);
        LeftmostLiteral(t, i, Scan(t, i + 1));
      }
    }
  }

  /** The segments concatenate back to the template. */
  lemma {:induction false} LeftmostText(t: string, i: nat, segments: seq<Segment>)
    requires i <= |t| && Leftmost(t, i, segments)
    ensures Text(segments) == t[i..]
    decreases |segments|
  {
    if segments != [] {
      var j := i + |segments[0].text|;
      assert j <= |t|;
      LeftmostText(t, j, segments[1..]);
      assert t[i..] == t[i..j] + t[j..];
    }
  }

  lemma HoleIsScanned(t: string, i: nat, j: nat, path: string)
    requires i <= j <= |t| && IsPlaceholder(t, i, j, path)
    ensures i < j && Scan(t, i) == [Hole(t[i..j], path)] + Scan(t, j)
  {
    MatchAtIsThePattern(t, i, j, path);
  }

  lemma LiteralIsScanned(t: string, i: nat)
    requires i < |t| && NoPlaceholder(t, i)
    ensures Scan(t, i) == [Literal([t[i]])] + Scan(t, i + 1)
  {
    NoMatchNoPlaceholder(t, i);
  }

  /** Leftmost, non-overlapping matching has one answer, and Scan computes it. */
  lemma {:induction false} LeftmostIsUnique(t: string, i: nat, segments: seq<Segment>)
    requires i <= |t| && Leftmost(t, i, segments)
    ensures segments == Scan(t, i)
    decreases |segments|
  {
    if segments != [] {
      hide IsPlaceholder, NoPlaceholder, Scan;
      var first, rest := segments[0], segments[1..];
      assert segments == [first] + rest;
      if first.Hole? {
        HoleIsScanned(t, i, i + |first.text|, first.path);
        LeftmostIsUnique(t, i + |first.text|, rest);
      } else {
        LiteralIsScanned(t, i);
        LeftmostIsUnique(t, i + 1, rest);
      }
    }
  }

  /* -------------------------------------------------------------- rendering */

  /** `path.split('.')`. */
  function Split(path: string): (parts: seq<string>)
    ensures |parts| > 0
  {
    if path == "" then [""]
    else
      var rest := Split(path[1..]);
      if path[0] == '.' then [""] + rest else [[path[0]] + rest[0]] + rest[1..]
  }

  function Walk(value: Option<Json>, parts: seq<string>): Option<Json>
    decreases |parts|
  {
    if parts == [] then value
    else Walk(if value.None? || value.value.Null? then None else Member(value.value, parts[0]), parts[1..])
  }

  /** The value at `path` under { payload }. */
  function ResolvePath(payload: Json, path: string): Option<Json> {
    Walk(Some(Obj(map["payload" := payload])), Split(path))
  }

  /** How a resolved value reads inside a string; None keeps the placeholder. */
  function Stringify(value: Option<Json>, jsonText: Json -> string): Option<string> {
    match value
    case None => None
    case Some(Null) => None
    case Some(Str(chars)) => Some(chars)
    case Some(Bool(b)) => Some(if b then "true" else "false")
    case Some(Num(text)) => Some(text)
    case Some(v) => Some(jsonText(v))
  }

  function Shown(payload: Json, path: string, jsonText: Json -> string): Option<string> {
    Stringify(ResolvePath(payload, path), jsonText)
  }

  function RenderSegment(segment: Segment, payload: Json, jsonText: Json -> string): string {
    if segment.Literal? then segment.text
    else
      match Shown(payload, segment.path, jsonText)
      case Some(s) => s
      case None => segment.text
  }

  function Render(segments: seq<Segment>, payload: Json, jsonText: Json -> string): string {
    if segments == [] then ""
    else RenderSegment(segments[0], payload, jsonText) + Render(segments[1..], payload, jsonText)
  }

  function Interpolate(template: string, payload: Json, jsonText: Json -> string): string {
    Render(Scan(template, 0), payload, jsonText)
  }

  /** The paths a template mentions. */
  ghost predicate Mentions(template: string, path: string) {
    exists i: nat, j: nat :: IsPlaceholder(template, i, j, path)
  }

  /** Every hole of the scan is a match of the template, so its path is mentioned. */
  lemma {:induction false} HolesAreMentioned(t: string, i: nat)
    requires i <= |t|
    ensures forall s :: s in Scan(t, i) && s.Hole? ==> Mentions(t, s.path)
    decreases |t| - i
  {
    if i < |t| {
      match MatchAt(t, i)
      case Some(m) =>
        MatchAtIsThePattern(t, i, m.0, m.1);
        HolesAreMentioned(t, m.0);
      case None => HolesAreMentioned(t, i + 1);
    }
  }

  lemma {:induction false} RenderDependsOnHoles(segments: seq<Segment>, p: Json, q: Json, jsonText: Json -> string)
    requires forall s :: s in segments && s.Hole? ==> Shown(p, s.path, jsonText) == Shown(q, s.path, jsonText)
    ensures Render(segments, p, jsonText) == Render(segments, q, jsonText)
  {
    if segments != [] {
      assert segments[0] in segments;
      RenderDependsOnHoles(segments[1..], p, q, jsonText);
    }
  }

  /** The result depends on the payload only through the values at mentioned paths. */
  lemma InterpolateDependsOnMentionedPaths(t: string, p: Json, q: Json, jsonText: Json -> string)
    requires forall path :: Mentions(t, path) ==> Shown(p, path, jsonText) == Shown(q, path, jsonText)
    ensures Interpolate(t, p, jsonText) == Interpolate(t, q, jsonText)
  {
    HolesAreMentioned(t, 0);
    RenderDependsOnHoles(Scan(t, 0), p, q, jsonText);
  }

  lemma {:induction false} RenderUnresolved(segments: seq<Segment>, payload: Json, jsonText: Json -> string)
    requires forall s :: s in segments && s.Hole? ==> Shown(payload, s.path, jsonText).None?
    ensures Render(segments, payload, jsonText) == Text(segments)
  {
    if segments != [] {
      assert segments[0] in segments;
      RenderUnresolved(segments[1..], payload, jsonText);
    }
  }

  /** A template none of whose paths resolves is left as it is. */
  lemma UnresolvedTemplateIsUnchanged(t: string, payload: Json, jsonText: Json -> string)
    requires forall path :: Mentions(t, path) ==> Shown(payload, path, jsonText).None?
    ensures Interpolate(t, payload, jsonText) == t
  {
    HolesAreMentioned(t, 0);
    RenderUnresolved(Scan(t, 0), payload, jsonText);
    ScanIsLeftmost(t, 0);
    LeftmostText(t, 0, Scan(t, 0));
  }

  lemma {:induction false} RenderConcat(a: seq<Segment>, b: seq<Segment>, payload: Json, jsonText: Json -> string)
    ensures Render(a + b, payload, jsonText) == Render(a, payload, jsonText) + Render(b, payload, jsonText)
  {
    hide RenderSegment;
    if a == [] {
      assert a + b == b;
    } else {
      assert (a + b)[1..] == a[1..] + b;
      RenderConcat(a[1..], b, payload, jsonText);
    }
  }

  /**
   Replacing is one pass: around any cut of the segments the two sides are
   rendered independently, so text inserted for one hole is never read again
   and never joins its surroundings into a new placeholder.
   */
  lemma InsertedTextIsNotRescanned(t: string, a: seq<Segment>, hole: Segment, b: seq<Segment>, payload: Json,
      jsonText: Json -> string)
    requires Leftmost(t, 0, a + [hole] + b) && hole.Hole?
    ensures Interpolate(t, payload, jsonText) ==
      Render(a, payload, jsonText) + Shown(payload, hole.path, jsonText).GetOr(hole.text) + Render(b, payload, jsonText)
  {
    LeftmostIsUnique(t, 0, a + [hole] + b);
    RenderAround(a, hole, b, payload, jsonText);
  }

  lemma RenderAround(a: seq<Segment>, s: Segment, b: seq<Segment>, payload: Json, jsonText: Json -> string)
    ensures Render(a + [s] + b, payload, jsonText) ==
      Render(a, payload, jsonText) + RenderSegment(s, payload, jsonText) + Render(b, payload, jsonText)
  {
    RenderConcat(a + [s], b, payload, jsonText);
    RenderConcat(a, [s], payload, jsonText);
    RenderOne(s, payload, jsonText);
  }

  predicate IsName(name: string) {
    name != "" && All(name, 0, |name|, IsPathChar) && '.' !in name
  }

  function Placeholder(name: string): string {
    "{{payload." + name + "}}"
  }

  /** ... which a second pass would do: interpolation is not idempotent. */
  lemma SecondPassDiffers(a: string, b: string, x: string, jsonText: Json -> string)
    requires IsName(a) && IsName(b) && a != b
    ensures
      var payload := Obj(map[a := Str(Placeholder(b)), b := Str(x)]);
      var once := Interpolate(Placeholder(a), payload, jsonText);
      once == Placeholder(b) && Interpolate(once, payload, jsonText) == x
  {
    var payload := Obj(map[a := Str(Placeholder(b)), b := Str(x)]);
    TopLevelPlaceholder(a, payload, jsonText);
    TopLevelPlaceholder(b, payload, jsonText);
  }

  lemma TopLevelPlaceholder(name: string, payload: Json, jsonText: Json -> string)
    requires payload.Obj? && name in payload.fields && IsName(name)
    ensures
      var t := Placeholder(name);
      Interpolate(t, payload, jsonText) == Stringify(Some(payload.fields[name]), jsonText).GetOr(t)
  {
    PlaceholderShape(name);
    LonePlaceholder(Placeholder(name), payload, jsonText);
    ResolveTopLevel(payload, name);
  }

  lemma PlaceholderShape(name: string)
    requires IsName(name)
    ensures var t := Placeholder(name); |t| > 4 && Shape(t, 0, 2, |t| - 2, |t|) && t[2..|t| - 2] == "payload." + name
  {
    var path := "payload." + name;
    var t := Placeholder(name);
    assert t == "{{" + path + "}}" && t[2..|t| - 2] == path;
    assert All(path, 0, |path|, IsPathChar) by {
      assert forall k :: 0 <= k < |path| ==> path[k] == if k < 8 then "payload."[k] else name[k - 8];
    }
    assert forall k :: 2 <= k < |t| - 2 ==> t[k] == path[k - 2];
  }

  lemma LonePlaceholder(t: string, payload: Json, jsonText: Json -> string)
    requires |t| > 4 && Shape(t, 0, 2, |t| - 2, |t|)
    ensures Interpolate(t, payload, jsonText) == Shown(payload, t[2..|t| - 2], jsonText).GetOr(t)
  {
    ShapeIsMatched(t, 0, 2, |t| - 2, |t|);
    var hole := Hole(t, t[2..|t| - 2]);
    assert t[0..|t|] == t && Scan(t, |t|) == [] && Scan(t, 0) == [hole];
    RenderOne(hole, payload, jsonText);
  }

  lemma RenderOne(segment: Segment, payload: Json, jsonText: Json -> string)
    ensures Render([segment], payload, jsonText) == RenderSegment(segment, payload, jsonText)
  {
    assert [segment][1..] == [];
  }

  lemma {:induction false} SplitAtDot(word: string, rest: string)
    requires '.' !in word
    ensures Split(word + "." + rest) == [word] + Split(rest)
    ensures Split(word) == [word]
  {
    if word == "" {
      assert (word + "." + rest)[1..] == rest;
    } else {
      SplitAtDot(word[1..], rest);
      assert (word + "." + rest)[1..] == word[1..] + "." + rest;
      assert word == [word[0]] + word[1..];
    }
  }

  lemma {:induction false} SplitSnoc(path: string, name: string)
    requires '.' !in name
    ensures Split(path + "." + name) == Split(path) + [name]
  {
    if path == "" {
      SplitAtDot(name, "");
      assert "" + "." + name == "." + name && ("." + name)[1..] == name;
    } else {
      SplitSnoc(path[1..], name);
      assert (path + "." + name)[1..] == path[1..] + "." + name;
    }
  }

  lemma {:induction false} WalkSnoc(value: Option<Json>, parts: seq<string>, name: string)
    ensures Walk(value, parts + [name]) ==
      match Walk(value, parts)
      case None => None
      case Some(v) => if v.Null? then None else Member(v, name)
    decreases |parts|
  {
    if parts == [] {
      assert [name][1..] == [] && parts + [name] == [name];
    } else {
      assert (parts + [name])[1..] == parts[1..] + [name];
      WalkSnoc(if value.None? || value.value.Null? then None else Member(value.value, parts[0]), parts[1..], name);
    }
  }

  /** A path of one name: only `payload` resolves. */
  lemma ResolveRoot(payload: Json, name: string)
    requires '.' !in name
    ensures ResolvePath(payload, name) == if name == "payload" then Some(payload) else None
  {
    SplitAtDot(name, "");
    WalkSnoc(Some(Obj(map["payload" := payload])), [], name);
    assert [] + [name] == [name];
  }

  /**
   What a longer path resolves to, of any length: the named member of what the path
   before it resolves to, and nothing if that is null or missing.
   */
  lemma ResolveMember(payload: Json, path: string, name: string)
    requires '.' !in name
    ensures
      match ResolvePath(payload, path)
      case None => ResolvePath(payload, path + "." + name).None?
      case Some(Obj(fields)) =>
        ResolvePath(payload, path + "." + name) == if name in fields then Some(fields[name]) else None
      case Some(v) =>
        ResolvePath(payload, path + "." + name) == if v.Null? then None else Member(v, name)
  {
    SplitSnoc(path, name);
    WalkSnoc(Some(Obj(map["payload" := payload])), Split(path), name);
    if ResolvePath(payload, path).Some? { OtherMembersOf(ResolvePath(payload, path).value, name); }
  }

  lemma OtherMembersOf(value: Json, name: string)
    ensures value.Obj? ==> Member(value, name) == if name in value.fields then Some(value.fields[name]) else None
  {
    if value.Obj? { OtherMembers(value, name); }
  }

  lemma ResolveTopLevel(payload: Json, name: string)
    requires payload.Obj? && name in payload.fields && '.' !in name
    ensures ResolvePath(payload, "payload." + name) == Some(payload.fields[name])
  {
    ResolveRoot(payload, "payload");
    ResolveMember(payload, "payload", name);
    assert "payload" + "." + name == "payload." + name;
  }

  /** How a value reads in place of its placeholder: null, or nothing, leaves the placeholder. */
  lemma PlaceholderShows(t: string, payload: Json, jsonText: Json -> string)
    requires |t| > 4 && Shape(t, 0, 2, |t| - 2, |t|)
    ensures
      var text := Interpolate(t, payload, jsonText);
      match ResolvePath(payload, t[2..|t| - 2])
      case None => text == t
      case Some(Null) => text == t
      case Some(Bool(b)) => text == if b then "true" else "false"
      case Some(Num(numeral)) => text == numeral
      case Some(Str(chars)) => text == chars
      case Some(v) => text == jsonText(v)
  {
    LonePlaceholder(t, payload, jsonText);
  }

  /* ----------------------------------------------------------------- config */

  /** Every string anywhere in a config value is a template. */
  function InterpolateConfig(config: Json, payload: Json, jsonText: Json -> string): (result: Json)
    decreases config
  {
    match config
    case Str(chars) => Str(Interpolate(chars, payload, jsonText))
    case Arr(items) =>
      Arr(seq(|items|, i requires 0 <= i < |items| => InterpolateConfig(items[i], payload, jsonText)))
    case Obj(fields) => Obj(map k | k in fields :: InterpolateConfig(fields[k], payload, jsonText))
    case _ => config
  }

  datatype Key = Index(i: nat) | Name(name: string)

  /** The node at the end of `path` in a config value. */
  function At(config: Json, path: seq<Key>): Option<Json>
    decreases |path|
  {
    if path == [] then Some(config)
    else
      match (config, path[0])
      case (Arr(items), Index(i)) => if i < |items| then At(items[i], path[1..]) else None
      case (Obj(fields), Name(k)) => if k in fields then At(fields[k], path[1..]) else None
      case _ => None
  }

  /**
   interpolateConfig keeps the shape: at every path there is a node after it
   exactly if there was one before, and that node is the old one interpolated.
   So a string leaf becomes its interpolation, and any other leaf, and every
   array length and member name, is what it was.
   */
  lemma {:induction false} ConfigShapeIsKept(config: Json, path: seq<Key>, payload: Json, jsonText: Json -> string)
    ensures
      var before, after := At(config, path), At(InterpolateConfig(config, payload, jsonText), path);
      && after.Some? == before.Some?
      && (before.Some? ==>
        match before.value
        case Str(chars) => after.value == Str(Interpolate(chars, payload, jsonText))
        case Arr(items) => after.value.Arr? && |after.value.items| == |items|
        case Obj(fields) => after.value.Obj? && after.value.fields.Keys == fields.Keys
        case leaf => after == before)
    decreases |path|
  {
    if path != [] {
      match (config, path[0])
      case (Arr(items), Index(i)) =>
        if i < |items| { ConfigShapeIsKept(items[i], path[1..], payload, jsonText); }
      case (Obj(fields), Name(k)) =>
        if k in fields { ConfigShapeIsKept(fields[k], path[1..], payload, jsonText); }
      case _ =>
    }
  }

  /** The payloads show the same at every path that some string of the config mentions. */
  ghost predicate ShowSame(config: Json, p: Json, q: Json, jsonText: Json -> string) {
    forall keys, chars, path :: At(config, keys) == Some(Str(chars)) && Mentions(chars, path) ==>
      Shown(p, path, jsonText) == Shown(q, path, jsonText)
  }

  lemma ShowSameBelow(config: Json, key: Key, child: Json, p: Json, q: Json, jsonText: Json -> string)
    requires ShowSame(config, p, q, jsonText) && At(config, [key]) == Some(child)
    ensures ShowSame(child, p, q, jsonText)
  {
    forall keys, chars, path | At(child, keys) == Some(Str(chars)) && Mentions(chars, path)
      ensures Shown(p, path, jsonText) == Shown(q, path, jsonText)
    {
      var below := [key] + keys;
      assert [key][1..] == [] && below[0] == key && below[1..] == keys;
      assert At(config, below) == Some(Str(chars));
    }
  }

  /** A whole config depends on the payload only through the values at the paths its strings mention. */
  lemma {:induction false} ConfigDependsOnMentionedPaths(config: Json, p: Json, q: Json, jsonText: Json -> string)
    requires ShowSame(config, p, q, jsonText)
    ensures InterpolateConfig(config, p, jsonText) == InterpolateConfig(config, q, jsonText)
    decreases config
  {
    match config
    case Str(chars) =>
      assert At(config, []) == Some(Str(chars));
      InterpolateDependsOnMentionedPaths(chars, p, q, jsonText);
    case Arr(items) =>
      forall i | 0 <= i < |items|
        ensures InterpolateConfig(items[i], p, jsonText) == InterpolateConfig(items[i], q, jsonText)
      {
        assert [Index(i)][1..] == [];
        ShowSameBelow(config, Index(i), items[i], p, q, jsonText);
        ConfigDependsOnMentionedPaths(items[i], p, q, jsonText);
      }
      assert InterpolateConfig(config, p, jsonText).items == InterpolateConfig(config, q, jsonText).items;
    case Obj(fields) =>
      forall k | k in fields
        ensures InterpolateConfig(fields[k], p, jsonText) == InterpolateConfig(fields[k], q, jsonText)
      {
        assert [Name(k)][1..] == [];
        ShowSameBelow(config, Name(k), fields[k], p, q, jsonText);
        ConfigDependsOnMentionedPaths(fields[k], p, q, jsonText);
      }
      assert InterpolateConfig(config, p, jsonText).fields == InterpolateConfig(config, q, jsonText).fields;
    case _ =>
  }
}
