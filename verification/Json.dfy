/** The values that cross every boundary of the system: JSON documents and
    optional results. */
module Options {
  datatype Option<+T> = None | Some(value: T) {
    function GetOr(default: T): T {
      if Some? then value else default
    }
  }
}

/**
 JSON documents. A number is kept as the text that `String()` gives for it, an
 object as a map of its own members; member order is not represented.
 */
module Json {
  import opened Options

  type Fields = map<string, Json>

  datatype Json =
    | Null
    | Bool(value: bool)
    | Num(text: string)
    | Str(chars: string)
    | Arr(items: seq<Json>)
    | Obj(fields: Fields)

  /** `a ?? b`. */
  function Coalesce(a: Json, b: Json): Json {
    if a.Null? then b else a
  }

  /** Decimal text of an index, as a property name. */
  function IndexText(n: nat): (s: string)
    ensures |s| > 0
  {
    var digit := "0123456789"[n % 10];
    if n < 10 then [digit] else IndexText(n / 10) + [digit]
  }

  /** An array's own members, keyed by index. */
  function IndexMembers(items: seq<Json>): Fields {
    if items == [] then map[]
    else IndexMembers(items[..|items| - 1])[IndexText(|items| - 1) := items[|items| - 1]]
  }

  /** The own enumerable members that `{...value}` copies. */
  function Spread(value: Json): Fields {
    match value
    case Obj(fields) => fields
    case Arr(items) => IndexMembers(items)
    case Str(chars) => IndexMembers(seq(|chars|, i requires 0 <= i < |chars| => Str([chars[i]])))
    case _ => map[]
  }

  /** `value[name]` on a value that is neither null nor undefined; None is undefined. */
  function Member(value: Json, name: string): Option<Json> {
    if name in Spread(value) then Some(Spread(value)[name])
    else if name == "length" && value.Arr? then Some(Num(IndexText(|value.items|)))
    else if name == "length" && value.Str? then Some(Num(IndexText(|value.chars|)))
    else None
  }

  /* --------------------------------------------- what indices and members are */

  function DigitValue(c: char): nat {
    if '0' <= c <= '9' then c as nat - '0' as nat else 0
  }

  /** The number a decimal numeral denotes. */
  function ReadDecimal(s: string): nat {
    if s == "" then 0 else 10 * ReadDecimal(s[..|s| - 1]) + DigitValue(s[|s| - 1])
  }

  /** The text of an index is its decimal numeral: it denotes the index, in digits, without a leading zero. */
  lemma {:induction false} IndexTextIsDecimal(n: nat)
    ensures ReadDecimal(IndexText(n)) == n
    ensures forall k :: 0 <= k < |IndexText(n)| ==> '0' <= IndexText(n)[k] <= '9'
    ensures IndexText(n)[0] == '0' ==> n == 0 && |IndexText(n)| == 1
  {
    var s, d := IndexText(n), "0123456789"[n % 10];
    assert DigitValue(d) == n % 10 && '0' <= d <= '9' && (d == '0' <==> n % 10 == 0);
    if n < 10 {
      assert s == [d] && s[..0] == "";
    } else {
      IndexTextIsDecimal(n / 10);
      assert s[..|s| - 1] == IndexText(n / 10) && s[|s| - 1] == d;
      assert s[0] == IndexText(n / 10)[0];
    }
  }

  lemma IndexTextTellsApart(m: nat, n: nat)
    requires IndexText(m) == IndexText(n)
    ensures m == n
  {
    IndexTextIsDecimal(m);
    IndexTextIsDecimal(n);
  }

  /** `name` is the property name of one of the first n indices. */
  ghost predicate IsIndex(name: string, n: nat) {
    exists i: nat :: i < n && name == IndexText(i)
  }

  lemma {:induction false} IndexMembersAre(items: seq<Json>, name: string)
    ensures name in IndexMembers(items) <==> IsIndex(name, |items|)
    ensures forall i: nat :: i < |items| && name == IndexText(i) ==>
      name in IndexMembers(items) && IndexMembers(items)[name] == items[i]
  {
    if items == [] {
    } else {
      hide IndexText;
      var n := |items| - 1;
      IndexMembersAre(items[..n], name);
      assert IndexMembers(items) == IndexMembers(items[..n])[IndexText(n) := items[n]];
      forall i: nat | i < n && name == IndexText(i) ensures name != IndexText(n) && items[..n][i] == items[i] {
        if IndexText(i) == IndexText(n) { IndexTextTellsApart(i, n); }
      }
      IsIndexNext(name, n);
    }
  }

  lemma IsIndexNext(name: string, n: nat)
    ensures IsIndex(name, n + 1) <==> IsIndex(name, n) || name == IndexText(n)
  {
    hide IndexText;
    if name == IndexText(n) { assert n < n + 1; }
  }

  lemma LengthIsNoIndex(n: nat)
    ensures !IsIndex("length", n)
  {
    hide IndexText;
    assert "length"[0] == 'l';
    if k: nat :| k < n && "length" == IndexText(k) { IndexTextIsDecimal(k); }
  }

  /** What `items` has under an index, and under `length`. */
  lemma IndexMemberAt(items: seq<Json>, i: nat)
    ensures IndexText(i) in IndexMembers(items) <==> i < |items|
    ensures i < |items| ==> IndexMembers(items)[IndexText(i)] == items[i]
    ensures "length" !in IndexMembers(items) && IndexText(i) != "length"
  {
    hide IndexText, IndexMembers;
    IndexMembersAre(items, IndexText(i));
    IndexMembersAre(items, "length");
    LengthIsNoIndex(|items|);
    LengthIsNoIndex(i + 1);
    assert IsIndex(IndexText(i), i + 1);
    if IsIndex(IndexText(i), |items|) {
      var k: nat :| k < |items| && IndexText(i) == IndexText(k);
      IndexTextTellsApart(k, i);
    }
  }

  /** An array has its indices and `length`, and no other member. */
  lemma ArrayMembers(items: seq<Json>, i: nat, name: string)
    ensures Member(Arr(items), IndexText(i)) == if i < |items| then Some(items[i]) else None
    ensures Member(Arr(items), "length") == Some(Num(IndexText(|items|)))
    ensures Member(Arr(items), name).Some? ==> name == "length" || IsIndex(name, |items|)
  {
    hide IndexText, IndexMembers, IsIndex;
    IndexMemberAt(items, i);
    IndexMembersAre(items, name);
  }

  /** A string has those of its characters. */
  lemma StringMembers(chars: string, i: nat, name: string)
    ensures Member(Str(chars), IndexText(i)) == if i < |chars| then Some(Str([chars[i]])) else None
    ensures Member(Str(chars), "length") == Some(Num(IndexText(|chars|)))
    ensures Member(Str(chars), name).Some? ==> name == "length" || IsIndex(name, |chars|)
  {
    hide IndexText, IndexMembers, IsIndex;
    var items := seq(|chars|, k requires 0 <= k < |chars| => Str([chars[k]]));
    IndexMemberAt(items, i);
    IndexMembersAre(items, name);
  }

  /** An object has its fields; numbers, booleans and null have no members. */
  lemma OtherMembers(value: Json, name: string)
    requires !value.Arr? && !value.Str?
    ensures Member(value, name) ==
      if value.Obj? && name in value.fields then Some(value.fields[name]) else None
  {
  }
}
