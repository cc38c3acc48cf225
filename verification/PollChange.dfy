/**
 Change detection for SCHEDULED triggers: each poll reduces the endpoint's answer to
 a comparable state, and what differs from the stored state starts runs. The stored
 state is written before the runs are admitted, so a tick that dies in between loses
 payloads but never repeats one.
 */
module PollChange {
  import opened Options
  import opened Json

  datatype Mode = Any | SpecificField | ArrayLength

  datatype Config = Config(changeMode: Mode, stateKey: Option<string>)

  datatype PollState = PollState(mode: Mode, comparison: Option<Json>, items: Option<seq<Json>>)

  datatype Outcome =
    | Baseline(state: PollState)
    | Unchanged(state: PollState)
    | Changed(state: PollState, payloads: seq<Json>, snapshot: Json)

  /** JSON.stringify, and the JSONPath library. */
  datatype Library = Library(stringify: Json -> string, path: (Json, string) -> Option<Json>)

  /* ------------------------------------------------------- one evaluation */

  function ExtractStateValue(lib: Library, body: Json, stateKey: Option<string>): Option<Json> {
    match stateKey
    case None => Some(body)
    case Some(key) =>
      if key == "" then Some(body)
      else if key[0] == '$' then lib.path(body, key)
      else if body.Obj? && key in body.fields then Some(body.fields[key])
      else None
  }

  function ExtractArray(lib: Library, body: Json, stateKey: Option<string>): seq<Json> {
    match ExtractStateValue(lib, body, stateKey)
    case Some(Arr(items)) => items
    case _ => []
  }

  function BuildState(lib: Library, config: Config, body: Json): PollState {
    match config.changeMode
    case ArrayLength =>
      var items := ExtractArray(lib, body, config.stateKey);
      PollState(ArrayLength, Some(Num(IndexText(|items|))), Some(items))
    case SpecificField => PollState(SpecificField, ExtractStateValue(lib, body, config.stateKey), None)
    case Any => PollState(Any, Some(Str(lib.stringify(body))), None)
  }

  /** `===` between a stored value and a new one: two objects are never the same. */
  predicate StrictlyEqual(a: Option<Json>, b: Option<Json>) {
    a == b && !(a.Some? && (a.value.Arr? || a.value.Obj?))
  }

  /** JSON.stringify of a comparison, undefined for undefined. */
  function Stringified(lib: Library, comparison: Option<Json>): Option<string> {
    match comparison
    case Some(value) => Some(lib.stringify(value))
    case None => None
  }

  predicate StatesEqual(lib: Library, mode: Mode, last: PollState, next: PollState) {
    if mode == ArrayLength then StrictlyEqual(last.comparison, next.comparison)
    else Stringified(lib, last.comparison) == Stringified(lib, next.comparison)
  }

  function TextOf(lib: Library, item: Json): string {
    lib.stringify(item)
  }

  function Texts(lib: Library, items: seq<Json>): set<string> {
    set item | item in items :: TextOf(lib, item)
  }

  function Without(lib: Library, items: seq<Json>, texts: set<string>): seq<Json> {
    if items == [] then []
    else
      var last := items[|items| - 1];
      Without(lib, items[..|items| - 1], texts) + if TextOf(lib, last) in texts then [] else [last]
  }

  function GetNewItems(lib: Library, previous: seq<Json>, current: seq<Json>): seq<Json> {
    Without(lib, current, Texts(lib, previous))
  }

  function EvaluatePoll(lib: Library, config: Config, body: Json, last: Option<PollState>): Outcome {
    var state := BuildState(lib, config, body);
    if last.None? then Baseline(state)
    else if StatesEqual(lib, config.changeMode, last.value, state) then Unchanged(state)
    else
      var payloads :=
        if config.changeMode == ArrayLength then GetNewItems(lib, last.value.items.GetOr([]), state.items.GetOr([]))
        else [body];
      Changed(state, payloads, body)
  }

  /* --------------------------------------------------------------- ticks */

  /** The stored state, and the payloads handed to admission so far. */
  datatype Store = Store(last: Option<PollState>, admitted: seq<Json>)

  /** A failed fetch, or an answer; a tick that dies after the state write admits only the first few payloads. */
  datatype Poll = Failed | Answered(body: Json, admits: Option<nat>)

  function PayloadsOf(outcome: Outcome): seq<Json> {
    if outcome.Changed? then outcome.payloads else []
  }

  function FirstFew(payloads: seq<Json>, admits: Option<nat>): seq<Json> {
    if admits.Some? && admits.value < |payloads| then payloads[..admits.value] else payloads
  }

  function Tick(lib: Library, config: Config, s: Store, poll: Poll): Store {
    match poll
    case Failed => s
    case Answered(body, admits) =>
      var outcome := EvaluatePoll(lib, config, body, s.last);
      Store(Some(outcome.state), s.admitted + FirstFew(PayloadsOf(outcome), admits))
  }

  function RunPolls(lib: Library, config: Config, polls: seq<Poll>): Store {
    if polls == [] then Store(None, [])
    else Tick(lib, config, RunPolls(lib, config, polls[..|polls| - 1]), polls[|polls| - 1])
  }

  /** The bodies of the successful polls, in order. */
  function Bodies(polls: seq<Poll>): seq<Json> {
    if polls == [] then []
    else
      var last := polls[|polls| - 1];
      Bodies(polls[..|polls| - 1]) + if last.Answered? then [last.body] else []
  }

  ghost predicate NoneDies(polls: seq<Poll>) {
    forall i :: 0 <= i < |polls| && polls[i].Answered? ==> polls[i].admits.None?
  }

  /** The stored state is that of the last successful body. */
  lemma {:induction false} StoredState(lib: Library, config: Config, polls: seq<Poll>)
    ensures
      var bodies := Bodies(polls);
      RunPolls(lib, config, polls).last ==
        if bodies == [] then None else Some(BuildState(lib, config, bodies[|bodies| - 1]))
  {
    if polls != [] { StoredState(lib, config, polls[..|polls| - 1]); }
  }

  /* ------------------------------------------- `any` and `specific_field` */

  /** What a mode looks at. */
  function Fingerprint(lib: Library, config: Config, body: Json): Option<string> {
    if config.changeMode == SpecificField then Stringified(lib, ExtractStateValue(lib, body, config.stateKey))
    else Some(lib.stringify(body))
  }

  /** The bodies that differ from the one before. */
  function Changes(lib: Library, config: Config, bodies: seq<Json>): seq<Json> {
    if |bodies| < 2 then []
    else
      var before, last := bodies[|bodies| - 2], bodies[|bodies| - 1];
      Changes(lib, config, bodies[..|bodies| - 1])
        + if Fingerprint(lib, config, before) != Fingerprint(lib, config, last) then [last] else []
  }

  /** JSON text tells strings apart. */
  ghost predicate QuotesStrings(lib: Library) {
    forall s, t :: Quoted(lib, s) == Quoted(lib, t) ==> s == t
  }

  function Quoted(lib: Library, s: string): string {
    lib.stringify(Str(s))
  }

  lemma FiresOnChange(lib: Library, config: Config, before: Json, body: Json)
    requires QuotesStrings(lib) && config.changeMode != ArrayLength
    ensures PayloadsOf(EvaluatePoll(lib, config, body, Some(BuildState(lib, config, before)))) ==
      if Fingerprint(lib, config, before) != Fingerprint(lib, config, body) then [body] else []
  {
    var s, t := lib.stringify(before), lib.stringify(body);
    assert Quoted(lib, s) == Quoted(lib, t) ==> s == t;
  }

  /** The key is the name of a field, not a JSONPath. */
  predicate IsPlainKey(key: string) {
    key != "" && key[0] != '$'
  }

  /** `specific_field` fires, with the whole body, exactly if the text of that field is another one, or came or went. */
  lemma FieldPollFires(lib: Library, key: string, before: Json, body: Json)
    requires IsPlainKey(key)
    ensures
      var config := Config(SpecificField, Some(key));
      var outcome := EvaluatePoll(lib, config, body, Some(BuildState(lib, config, before)));
      var had, has := before.Obj? && key in before.fields, body.Obj? && key in body.fields;
      && (outcome.Changed? <==>
            had != has || (had && lib.stringify(before.fields[key]) != lib.stringify(body.fields[key])))
      && (outcome.Changed? ==> outcome.payloads == [body] && outcome.snapshot == body)
  {
  }

  /** `any`, exactly if the text of the body is another one. */
  lemma AnyPollFires(lib: Library, key: Option<string>, before: Json, body: Json)
    requires QuotesStrings(lib)
    ensures
      var config := Config(Any, key);
      var outcome := EvaluatePoll(lib, config, body, Some(BuildState(lib, config, before)));
      && (outcome.Changed? <==> lib.stringify(before) != lib.stringify(body))
      && (outcome.Changed? ==> outcome.payloads == [body] && outcome.snapshot == body)
  {
    var s, t := lib.stringify(before), lib.stringify(body);
    assert Quoted(lib, s) == Quoted(lib, t) ==> s == t;
  }

  lemma ChangesSnoc(lib: Library, config: Config, bodies: seq<Json>, last: Json)
    ensures
      var changed := bodies != [] && Fingerprint(lib, config, bodies[|bodies| - 1]) != Fingerprint(lib, config, last);
      Changes(lib, config, bodies + [last]) == Changes(lib, config, bodies) + if changed then [last] else []
  {
    hide Fingerprint;
    assert (bodies + [last])[..|bodies|] == bodies;
  }

  /**
   `any` and `specific_field` fire exactly once, with the whole body, per change
   between adjacent successful bodies, whatever polls fail in between.
   */
  lemma {:induction false} FiresOncePerChange(lib: Library, config: Config, polls: seq<Poll>)
    requires QuotesStrings(lib) && config.changeMode != ArrayLength && NoneDies(polls)
    ensures RunPolls(lib, config, polls).admitted == Changes(lib, config, Bodies(polls))
  {
    if polls != [] {
      hide EvaluatePoll, BuildState, Fingerprint, QuotesStrings, Changes;
      var earlier := polls[..|polls| - 1];
      var bodies, last := Bodies(earlier), polls[|polls| - 1];
      FiresOncePerChange(lib, config, earlier);
      StoredState(lib, config, earlier);
      assert Bodies(polls) == bodies + if last.Answered? then [last.body] else [];
      if last.Answered? {
        ChangesSnoc(lib, config, bodies, last.body);
        if bodies != [] {
          FiresOnChange(lib, config, bodies[|bodies| - 1], last.body);
        } else {
          FirstIsBaseline(lib, config, last.body);
        }
      } else {
        assert Bodies(polls) == bodies;
      }
    }
  }

  /* ---------------------------------------------------------- `array_length` */

  lemma {:induction false} WithoutMembers(lib: Library, items: seq<Json>, texts: set<string>, item: Json)
    ensures item in Without(lib, items, texts) <==> item in items && TextOf(lib, item) !in texts
  {
    if items != [] {
      WithoutMembers(lib, items[..|items| - 1], texts, item);
      assert items == items[..|items| - 1] + [items[|items| - 1]];
    }
  }

  /** The items that are left are in their order. */
  lemma {:induction false} WithoutKeepsOrder(lib: Library, items: seq<Json>, texts: set<string>)
    ensures Subsequence(Without(lib, items, texts), items)
  {
    if items == [] {
      assert Without(lib, items, texts) == [];
    } else {
      hide Subsequence, TextOf;
      var init, last := items[..|items| - 1], items[|items| - 1];
      WithoutKeepsOrder(lib, init, texts);
      assert items == init + [last];
      SubsequenceOfLonger(Without(lib, init, texts), init, [last]);
      SubsequenceSnoc(Without(lib, init, texts), init, last);
      assert Without(lib, init, texts) + [] == Without(lib, init, texts);
    }
  }

  /** And as often as they were. */
  lemma {:induction false} WithoutCounts(lib: Library, items: seq<Json>, texts: set<string>, item: Json)
    ensures multiset(Without(lib, items, texts))[item] ==
      if TextOf(lib, item) in texts then 0 else multiset(items)[item]
  {
    if items != [] {
      WithoutCounts(lib, items[..|items| - 1], texts, item);
      assert items == items[..|items| - 1] + [items[|items| - 1]];
    }
  }

  /** `array_length` looks at the array in that field, or at the body; anything else counts as an empty one. */
  lemma ArrayOfField(lib: Library, key: string, body: Json)
    requires IsPlainKey(key)
    ensures ArrayOf(lib, Config(ArrayLength, Some(key)), body) ==
      if body.Obj? && key in body.fields && body.fields[key].Arr? then body.fields[key].items else []
    ensures ArrayOf(lib, Config(ArrayLength, None), body) == if body.Arr? then body.items else []
  {
  }

  /**
   It fires exactly if the length is another one, once for each item that was not there
   before, by its text, in the order of the array.
   */
  lemma ArrayPollFires(lib: Library, config: Config, before: Json, body: Json, item: Json)
    requires config.changeMode == ArrayLength
    ensures
      var was, now := ArrayOf(lib, config, before), ArrayOf(lib, config, body);
      var outcome := EvaluatePoll(lib, config, body, Some(BuildState(lib, config, before)));
      && (outcome.Changed? <==> |was| != |now|)
      && (outcome.Changed? ==>
            && outcome.snapshot == body && Subsequence(outcome.payloads, now)
            && multiset(outcome.payloads)[item] ==
                 if exists seen :: seen in was && lib.stringify(seen) == lib.stringify(item) then 0
                 else multiset(now)[item])
  {
    hide Subsequence, EvaluatePoll, BuildState, ArrayOf, Without;
    var was, now := ArrayOf(lib, config, before), ArrayOf(lib, config, body);
    ArrayOutcome(lib, config, before, body);
    WithoutKeepsOrder(lib, now, Texts(lib, was));
    WithoutCounts(lib, now, Texts(lib, was), item);
    assert TextOf(lib, item) in Texts(lib, was) <==>
      exists seen :: seen in was && lib.stringify(seen) == lib.stringify(item);
  }

  lemma ArrayOutcome(lib: Library, config: Config, before: Json, body: Json)
    requires config.changeMode == ArrayLength
    ensures
      var was, now := ArrayOf(lib, config, before), ArrayOf(lib, config, body);
      var outcome := EvaluatePoll(lib, config, body, Some(BuildState(lib, config, before)));
      && (outcome.Changed? <==> |was| != |now|)
      && (outcome.Changed? ==> outcome.snapshot == body && outcome.payloads == GetNewItems(lib, was, now))
  {
    hide IndexText, ExtractStateValue;
    var was, now := ArrayOf(lib, config, before), ArrayOf(lib, config, body);
    if IndexText(|was|) == IndexText(|now|) { IndexTextTellsApart(|was|, |now|); }
  }

  /** The payloads of one poll: nothing when the length is the same, else the items that were not there before. */
  lemma ArrayPayloads(lib: Library, config: Config, before: Json, body: Json)
    requires config.changeMode == ArrayLength
    ensures
      var was, now := ExtractArray(lib, before, config.stateKey), ExtractArray(lib, body, config.stateKey);
      PayloadsOf(EvaluatePoll(lib, config, body, Some(BuildState(lib, config, before)))) ==
        if |was| == |now| then [] else GetNewItems(lib, was, now)
  {
    ArrayOutcome(lib, config, before, body);
  }

  /**
   `array_length` is only an approximation of its purpose: an item that was not there
   at the last poll starts a run if and only if the length has changed, so an item
   that replaces another goes unnoticed.
   */
  lemma NewItemIsSeenIff(lib: Library, config: Config, before: Json, body: Json, item: Json)
    requires config.changeMode == ArrayLength
    requires item in ExtractArray(lib, body, config.stateKey)
    requires TextOf(lib, item) !in Texts(lib, ExtractArray(lib, before, config.stateKey))
    ensures
      item in PayloadsOf(EvaluatePoll(lib, config, body, Some(BuildState(lib, config, before))))
      <==> |ExtractArray(lib, before, config.stateKey)| != |ExtractArray(lib, body, config.stateKey)|
  {
    ArrayPayloads(lib, config, before, body);
    var was, now := ExtractArray(lib, before, config.stateKey), ExtractArray(lib, body, config.stateKey);
    WithoutMembers(lib, now, Texts(lib, was), item);
  }

  /** One item replaced by another, at the same length: nothing is delivered. */
  lemma ReplacedItemIsMissed(lib: Library, config: Config, gone: Json, added: Json)
    requires config.changeMode == ArrayLength && config.stateKey.None? && lib.stringify(gone) != lib.stringify(added)
    ensures
      var before, body := Arr([gone]), Arr([added]);
      && added in ArrayOf(lib, config, body) && TextOf(lib, added) !in Texts(lib, ArrayOf(lib, config, before))
      && PayloadsOf(EvaluatePoll(lib, config, body, Some(BuildState(lib, config, before)))) == []
  {
    ArrayPayloads(lib, config, Arr([gone]), Arr([added]));
  }

  function ArrayOf(lib: Library, config: Config, body: Json): seq<Json> {
    ExtractArray(lib, body, config.stateKey)
  }

  /** An array extended with items whose text was not in it. */
  ghost predicate Extends(lib: Library, was: seq<Json>, now: seq<Json>) {
    was <= now && forall k :: |was| <= k < |now| ==> TextOf(lib, now[k]) !in Texts(lib, was)
  }

  /** Each body's array extends the one before. */
  ghost predicate AppendsFresh(lib: Library, config: Config, bodies: seq<Json>) {
    forall i :: 0 < i < |bodies| ==> Extends(lib, ArrayOf(lib, config, bodies[i - 1]), ArrayOf(lib, config, bodies[i]))
  }

  lemma {:induction false} WithoutOwn(lib: Library, items: seq<Json>, texts: set<string>)
    requires Texts(lib, items) <= texts
    ensures Without(lib, items, texts) == []
  {
    if items != [] {
      assert TextOf(lib, items[|items| - 1]) in Texts(lib, items);
      assert Texts(lib, items[..|items| - 1]) <= Texts(lib, items);
      WithoutOwn(lib, items[..|items| - 1], texts);
    }
  }

  /** Of an extended array, exactly the added items are new, in order. */
  lemma {:induction false} NewOfExtended(lib: Library, was: seq<Json>, now: seq<Json>)
    requires Extends(lib, was, now)
    ensures GetNewItems(lib, was, now) == now[|was|..]
    decreases |now|
  {
    if |now| == |was| {
      assert now == was;
      WithoutOwn(lib, was, Texts(lib, was));
    } else {
      NewOfExtended(lib, was, now[..|now| - 1]);
      assert now[|was|..] == now[..|now| - 1][|was|..] + [now[|now| - 1]];
    }
  }

  lemma AppendPayloads(lib: Library, config: Config, before: Json, body: Json)
    requires config.changeMode == ArrayLength && AppendsFresh(lib, config, [before, body])
    ensures
      var was, now := ArrayOf(lib, config, before), ArrayOf(lib, config, body);
      was <= now && PayloadsOf(EvaluatePoll(lib, config, body, Some(BuildState(lib, config, before)))) == now[|was|..]
  {
    assert [before, body][0] == before && [before, body][1] == body;
    ArrayPayloads(lib, config, before, body);
    NewOfExtended(lib, ArrayOf(lib, config, before), ArrayOf(lib, config, body));
  }

  lemma AppendsFreshPrefix(lib: Library, config: Config, bodies: seq<Json>, last: Json)
    requires AppendsFresh(lib, config, bodies + [last])
    ensures AppendsFresh(lib, config, bodies)
    ensures bodies != [] ==> AppendsFresh(lib, config, [bodies[|bodies| - 1], last])
  {
    var longer := bodies + [last];
    forall i | 0 < i < |bodies|
      ensures Extends(lib, ArrayOf(lib, config, bodies[i - 1]), ArrayOf(lib, config, bodies[i]))
    {
      assert longer[i - 1] == bodies[i - 1] && longer[i] == bodies[i];
    }
    if bodies != [] {
      assert longer[|bodies| - 1] == bodies[|bodies| - 1] && longer[|bodies|] == last;
    }
  }

  /** What there is to deliver: the final array without the baseline. */
  function Added(lib: Library, config: Config, bodies: seq<Json>): seq<Json>
    requires bodies != [] ==> |ArrayOf(lib, config, bodies[0])| <= |ArrayOf(lib, config, bodies[|bodies| - 1])|
  {
    if bodies == [] then [] else ArrayOf(lib, config, bodies[|bodies| - 1])[|ArrayOf(lib, config, bodies[0])|..]
  }

  lemma {:induction false} ArraysGrow(lib: Library, config: Config, bodies: seq<Json>)
    requires AppendsFresh(lib, config, bodies) && bodies != []
    ensures ArrayOf(lib, config, bodies[0]) <= ArrayOf(lib, config, bodies[|bodies| - 1])
  {
    if |bodies| > 1 {
      var earlier, last := bodies[..|bodies| - 1], bodies[|bodies| - 1];
      assert bodies == earlier + [last];
      AppendsFreshPrefix(lib, config, earlier, last);
      ArraysGrow(lib, config, earlier);
      assert [earlier[|earlier| - 1], last][0] == earlier[|earlier| - 1] && [earlier[|earlier| - 1], last][1] == last;
    }
  }

  /** `sub` can be had from `whole` by leaving out items. */
  ghost predicate Subsequence(sub: seq<Json>, whole: seq<Json>) {
    if sub == [] then true
    else if whole == [] then false
    else if sub[|sub| - 1] == whole[|whole| - 1] && Subsequence(sub[..|sub| - 1], whole[..|whole| - 1]) then true
    else Subsequence(sub, whole[..|whole| - 1])
  }

  lemma {:induction false} SubsequenceOfLonger(sub: seq<Json>, whole: seq<Json>, more: seq<Json>)
    requires Subsequence(sub, whole)
    ensures Subsequence(sub, whole + more)
  {
    if more == [] {
      assert whole + more == whole;
    } else {
      SubsequenceOfLonger(sub, whole, more[..|more| - 1]);
      assert (whole + more)[..|whole + more| - 1] == whole + more[..|more| - 1];
    }
  }

  lemma SubsequenceSnoc(sub: seq<Json>, whole: seq<Json>, item: Json)
    requires Subsequence(sub, whole)
    ensures Subsequence(sub + [item], whole + [item])
  {
    assert (sub + [item])[..|sub|] == sub && (whole + [item])[..|whole|] == whole;
  }

  /** A delivered prefix of the added items keeps the delivery a subsequence. */
  lemma {:induction false} SubsequenceWithFew(sub: seq<Json>, whole: seq<Json>, few: seq<Json>, more: seq<Json>)
    requires Subsequence(sub, whole) && few <= more
    ensures Subsequence(sub + few, whole + more)
    decreases |few|
  {
    hide Subsequence;
    if few == [] {
      assert sub + few == sub;
      SubsequenceOfLonger(sub, whole, more);
    } else {
      var n := |few| - 1;
      SubsequenceWithFew(sub, whole, few[..n], few[..n]);
      SubsequenceSnoc(sub + few[..n], whole + few[..n], few[n]);
      assert sub + few[..n] + [few[n]] == sub + few && whole + few[..n] + [few[n]] == whole + few;
      SubsequenceOfLonger(sub + few, whole + few, more[n + 1..]);
      assert whole + few + more[n + 1..] == whole + more;
    }
  }

  lemma {:induction false} SubsequenceCounts(sub: seq<Json>, whole: seq<Json>)
    requires Subsequence(sub, whole)
    ensures multiset(sub) <= multiset(whole)
    decreases |whole|
  {
    if sub != [] {
      assert whole == whole[..|whole| - 1] + [whole[|whole| - 1]];
      if sub[|sub| - 1] == whole[|whole| - 1] && Subsequence(sub[..|sub| - 1], whole[..|whole| - 1]) {
        assert sub == sub[..|sub| - 1] + [sub[|sub| - 1]];
        SubsequenceCounts(sub[..|sub| - 1], whole[..|whole| - 1]);
      } else {
        SubsequenceCounts(sub, whole[..|whole| - 1]);
      }
    }
  }

  /**
   `array_length` over an append-only endpoint: the payloads of all ticks, one after
   the other, are a subsequence of the added items, so none is delivered twice even
   if ticks die; and they are exactly the added items, in order, if none does.
   */
  lemma {:induction false} DeliversAdded(lib: Library, config: Config, polls: seq<Poll>)
    requires config.changeMode == ArrayLength && AppendsFresh(lib, config, Bodies(polls))
    ensures
      var bodies := Bodies(polls);
      && (bodies != [] ==> ArrayOf(lib, config, bodies[0]) <= ArrayOf(lib, config, bodies[|bodies| - 1]))
      && Subsequence(RunPolls(lib, config, polls).admitted, Added(lib, config, bodies))
      && (NoneDies(polls) ==> RunPolls(lib, config, polls).admitted == Added(lib, config, bodies))
  {
    if polls != [] {
      hide AppendsFresh, EvaluatePoll, Subsequence, Added, ArrayOf;
      var earlier, last := polls[..|polls| - 1], polls[|polls| - 1];
      if last.Answered? {
        AppendsFreshPrefix(lib, config, Bodies(earlier), last.body);
        DeliversAdded(lib, config, earlier);
        DeliversOneMore(lib, config, earlier, last);
      } else {
        assert Bodies(polls) == Bodies(earlier);
        DeliversAdded(lib, config, earlier);
      }
    }
  }

  /** So every item starts at most one run for each time it was added. */
  lemma DeliversAtMostOnce(lib: Library, config: Config, polls: seq<Poll>)
    requires config.changeMode == ArrayLength && AppendsFresh(lib, config, Bodies(polls)) && Bodies(polls) != []
    ensures
      var bodies := Bodies(polls);
      && |ArrayOf(lib, config, bodies[0])| <= |ArrayOf(lib, config, bodies[|bodies| - 1])|
      && multiset(RunPolls(lib, config, polls).admitted) <= multiset(Added(lib, config, bodies))
  {
    hide Subsequence, Added, ArrayOf, RunPolls, Bodies, AppendsFresh;
    DeliversAdded(lib, config, polls);
    SubsequenceCounts(RunPolls(lib, config, polls).admitted, Added(lib, config, Bodies(polls)));
  }

  lemma DeliversOneMore(lib: Library, config: Config, earlier: seq<Poll>, last: Poll)
    requires config.changeMode == ArrayLength && last.Answered?
      && AppendsFresh(lib, config, Bodies(earlier) + [last.body])
    requires
      var bodies := Bodies(earlier);
      && (bodies != [] ==> ArrayOf(lib, config, bodies[0]) <= ArrayOf(lib, config, bodies[|bodies| - 1]))
      && Subsequence(RunPolls(lib, config, earlier).admitted, Added(lib, config, bodies))
    ensures
      var bodies := Bodies(earlier) + [last.body];
      var s := Tick(lib, config, RunPolls(lib, config, earlier), last);
      && ArrayOf(lib, config, bodies[0]) <= ArrayOf(lib, config, last.body)
      && Subsequence(s.admitted, Added(lib, config, bodies))
      && (RunPolls(lib, config, earlier).admitted == Added(lib, config, Bodies(earlier)) && last.admits.None? ==>
            s.admitted == Added(lib, config, bodies))
  {
    hide EvaluatePoll, BuildState, AppendsFresh, ArrayOf;
    var bodies := Bodies(earlier);
    var admitted := RunPolls(lib, config, earlier).admitted;
    StoredState(lib, config, earlier);
    if bodies == [] {
      FirstIsBaseline(lib, config, last.body);
    } else {
      var before := bodies[|bodies| - 1];
      AppendsFreshPrefix(lib, config, bodies, last.body);
      AppendPayloads(lib, config, before, last.body);
      var base, was, now := ArrayOf(lib, config, bodies[0]), ArrayOf(lib, config, before),
        ArrayOf(lib, config, last.body);
      assert now[|base|..] == was[|base|..] + now[|was|..];
      SubsequenceWithFew(admitted, was[|base|..], FirstFew(now[|was|..], last.admits), now[|was|..]);
    }
  }

  lemma FirstIsBaseline(lib: Library, config: Config, body: Json)
    ensures PayloadsOf(EvaluatePoll(lib, config, body, None)) == []
  {
  }

  /* ----------------------------------------------------------------- pollOnce */

  /** The state kept for one trigger, and the runs its polls have asked for. */
  class PolledTrigger {
    const lib: Library
    const config: Config
    var last: Option<PollState>
    var admitted: seq<Json>
    ghost var polls: seq<Poll>

    ghost predicate Valid()
      reads this
    {
      Store(last, admitted) == RunPolls(lib, config, polls)
    }

    constructor (lib: Library, config: Config)
      ensures Valid() && this.lib == lib && this.config == config && polls == []
    {
      this.lib, this.config := lib, config;
      last, admitted, polls := None, [], [];
    }

    /**
     pollOnce, for a trigger that is `active` or is to stop polling; `body` is what the
     endpoint answers, None when the fetch fails, and `dies` how many payloads a tick
     that does not survive gets to admit.
     */
    method PollOnce(active: bool, body: Option<Json>, dies: Option<nat>) returns (keepPolling: bool)
      requires Valid()
      modifies this
      ensures Valid() && keepPolling == active
      ensures polls == old(polls)
        + if !active then [] else if body.None? then [Failed] else [Answered(body.value, dies)]
    {
      if !active {
        return false;
      }
      ghost var poll := if body.None? then Failed else Answered(body.value, dies);
      assert (polls + [poll])[..|polls|] == polls;
      polls := polls + [poll];
      if body.None? {
        return true; // the error is recorded
      }
      var outcome := EvaluatePoll(lib, config, body.value, last);
      last := Some(outcome.state);
      if !outcome.Changed? {
        return true;
      }
      var i := 0;
      while i < |outcome.payloads| && dies != Some(i)
        invariant 0 <= i <= |outcome.payloads| && (dies.Some? ==> i <= dies.value)
        invariant admitted == old(admitted) + outcome.payloads[..i]
        invariant last == Some(outcome.state) && polls == old(polls) + [poll]
      {
        admitted := admitted + [outcome.payloads[i]];
        i := i + 1;
      }
      assert outcome.payloads[..i] == FirstFew(outcome.payloads, dies);
      return true;
    }
  }
}
