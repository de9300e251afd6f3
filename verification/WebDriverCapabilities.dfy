/** New Session: which capabilities a request asks for, and the browsers tried for them.
    How one capability is validated or matched is left open. */
module WebDriverCapabilities {
  import opened Wrappers

  type Json = nat
  type Object = map<string, Json>

  /** Entries of `firstMatch` that are no objects are None. */
  datatype Request = Request(alwaysMatch: Field<Object>, firstMatch: Field<seq<Option<Object>>>)

  datatype Rules = Rules(validate: Object -> Option<Object>, matching: Object -> Option<Object>)

  datatype Error = InvalidArgument | SessionNotCreated | UnknownError

  datatype Result = Success(capabilities: Object) | Fail(error: Error)

  /** What comes of starting a browser: no connection, an error from the automation session,
      capabilities that do not match after all, no browsing context, or a session. */
  datatype Attempt = NoConnection | StartFailed | Mismatch | NoContext | Started

  /** It may depend on everything tried so far, the last of which is the one at hand. */
  type Hosts = seq<Object> -> Attempt

  // ----- What a request means

  function AlwaysMatch(request: Request): Object
    requires !request.alwaysMatch.Invalid?
  {
    if request.alwaysMatch.Given? then request.alwaysMatch.value else map[]
  }

  function FirstMatch(request: Request): seq<Option<Object>>
    requires !request.firstMatch.Invalid?
  {
    if request.firstMatch.Given? then request.firstMatch.value else [Some(map[])]
  }

  ghost predicate AlternativeIsValid(required: Object, entry: Option<Object>, rules: Rules) {
    && entry.Some?
    && rules.validate(entry.value).Some?
    && rules.validate(entry.value).value.Keys !! required.Keys
  }

  /** Whether a request is valid: all parts have the right form and are valid by
      themselves, and no alternative repeats a capability that is required anyway. */
  ghost predicate IsValid(request: Request, rules: Rules) {
    && !request.alwaysMatch.Invalid?
    && !request.firstMatch.Invalid?
    && rules.validate(AlwaysMatch(request)).Some?
    && forall k | 0 <= k < |FirstMatch(request)| ::
         AlternativeIsValid(rules.validate(AlwaysMatch(request)).value, FirstMatch(request)[k], rules)
  }

  /** The capabilities alternative `k` stands for, if this end can provide them. */
  ghost function Provided(request: Request, rules: Rules, k: nat): Option<Object>
    requires IsValid(request, rules) && k < |FirstMatch(request)|
  {
    var entry := FirstMatch(request)[k];
    assert AlternativeIsValid(rules.validate(AlwaysMatch(request)).value, entry, rules);
    rules.matching(rules.validate(AlwaysMatch(request)).value + rules.validate(entry.value).value)
  }

  /** `list` holds what the alternatives provide, in the order of the alternatives in
      `places`, which are all those that provide anything. */
  ghost predicate ListsProvided(request: Request, rules: Rules, upTo: nat, list: seq<Object>, places: seq<nat>)
    requires IsValid(request, rules) && upTo <= |FirstMatch(request)|
  {
    && |places| == |list|
    && (forall i | 0 <= i < |places| :: places[i] < upTo && Provided(request, rules, places[i]) == Some(list[i]))
    && Increasing(places)
    && (forall k: nat | k < upTo && Provided(request, rules, k).Some? :: k in places)
  }

  /** That says everything about a list. */
  lemma {:induction false} ProvidedIsUnique(request: Request, rules: Rules, upTo: nat,
                                            list: seq<Object>, places: seq<nat>, other: seq<Object>, otherPlaces: seq<nat>)
    requires IsValid(request, rules) && upTo <= |FirstMatch(request)|
    requires ListsProvided(request, rules, upTo, list, places)
    requires ListsProvided(request, rules, upTo, other, otherPlaces)
    ensures list == other && places == otherPlaces
  {
    hide Provided, IsValid;
    IncreasingByMembers(places, otherPlaces);
    forall i | 0 <= i < |list|
      ensures list[i] == other[i]
    {
      assert Provided(request, rules, places[i]) == Provided(request, rules, otherPlaces[i]);
    }
  }

  ghost predicate Increasing(a: seq<nat>) { forall i, j | 0 <= i < j < |a| :: a[i] < a[j] }

  ghost predicate Within(a: seq<nat>, b: seq<nat>) { forall i | 0 <= i < |a| :: a[i] in b }

  /** An increasing sequence is known by its members. */
  lemma {:induction false} IncreasingByMembers(a: seq<nat>, b: seq<nat>)
    requires Increasing(a) && Increasing(b) && Within(a, b) && Within(b, a)
    ensures a == b
  {
    SomeMember(a, b);
    SomeMember(b, a);
    if a != [] {
      var x, y := |a| - 1, |b| - 1;
      LastIsLargest(a, b);
      LastIsLargest(b, a);
      assert Within(a[..x], b[..y]) && Within(b[..y], a[..x]) by {
        ButLast(a, b);
        ButLast(b, a);
      }
      IncreasingByMembers(a[..x], b[..y]);
      assert a == a[..x] + [a[x]] && b == b[..y] + [b[y]];
    }
  }

  lemma {:induction false} SomeMember(a: seq<nat>, b: seq<nat>)
    requires Within(a, b)
    ensures a != [] ==> b != []
  {
    if a != [] {
      assert a[0] in b;
    }
  }

  lemma {:induction false} LastIsLargest(a: seq<nat>, b: seq<nat>)
    requires a != [] && b != [] && Increasing(b) && Within(a, b)
    ensures a[|a| - 1] <= b[|b| - 1]
  {
    var j :| 0 <= j < |b| && b[j] == a[|a| - 1];
  }

  lemma {:induction false} ButLast(a: seq<nat>, b: seq<nat>)
    requires a != [] && b != [] && Increasing(a) && Within(a, b) && a[|a| - 1] == b[|b| - 1]
    ensures Within(a[..|a| - 1], b[..|b| - 1])
  {
    var most := a[..|a| - 1];
    forall i | 0 <= i < |most|
      ensures most[i] in b[..|b| - 1]
    {
      var j :| 0 <= j < |b| && b[j] == a[i];
      assert b[..|b| - 1][j] == a[i];
    }
  }

  // ----- What is matched is the merge

  /** All of `a` and all of `b`, and nothing else. */
  ghost predicate IsMerge(x: Object, a: Object, b: Object) {
    x.Keys == a.Keys + b.Keys && Holds(x, a) && Holds(x, b)
  }

  ghost predicate Holds(x: Object, a: Object) {
    forall key | key in a :: key in x && x[key] == a[key]
  }

  /** The validated alwaysMatch, and the validated alternative `k`. */
  ghost function Required(request: Request, rules: Rules): Object
    requires IsValid(request, rules)
  {
    rules.validate(AlwaysMatch(request)).value
  }

  ghost function Own(request: Request, rules: Rules, k: nat): Object
    requires IsValid(request, rules) && k < |FirstMatch(request)|
  {
    assert AlternativeIsValid(Required(request, rules), FirstMatch(request)[k], rules);
    rules.validate(FirstMatch(request)[k].value).value
  }

  /** `o` is what matching makes of alternative `k` merged with what is required. */
  ghost predicate IsMatchOf(request: Request, rules: Rules, k: nat, o: Option<Object>)
    requires IsValid(request, rules) && k < |FirstMatch(request)|
  {
    exists x :: IsMerge(x, Required(request, rules), Own(request, rules, k)) && rules.matching(x) == o
  }

  /** `list` holds the matches of the alternatives `places`, in order; the others have none. */
  ghost predicate ListsMatches(request: Request, rules: Rules, list: seq<Object>, places: seq<nat>)
    requires IsValid(request, rules)
  {
    && |places| == |list| && Increasing(places)
    && (forall i | 0 <= i < |places| ::
          places[i] < |FirstMatch(request)| && IsMatchOf(request, rules, places[i], Some(list[i])))
    && (forall k: nat | k < |FirstMatch(request)| && k !in places :: IsMatchOf(request, rules, k, None))
  }

  lemma {:induction false} ProvidedIsMatch(request: Request, rules: Rules, k: nat)
    requires IsValid(request, rules) && k < |FirstMatch(request)|
    ensures IsMatchOf(request, rules, k, Provided(request, rules, k))
  {
    var a, b := Required(request, rules), Own(request, rules, k);
    assert AlternativeIsValid(a, FirstMatch(request)[k], rules);
    DisjointIsMerge(a, b);
  }

  lemma {:induction false} DisjointIsMerge(a: Object, b: Object)
    requires a.Keys !! b.Keys
    ensures IsMerge(a + b, a, b)
  {
  }

  /** A merge is one map only, so matching has nothing to choose. */
  lemma {:induction false} OnlyOneMerge(x: Object, y: Object, a: Object, b: Object)
    requires IsMerge(x, a, b) && IsMerge(y, a, b)
    ensures x == y
  {
    forall key | key in x
      ensures x[key] == y[key]
    {
      assert key in a || key in b;
    }
  }

  lemma {:induction false} ProvidedAreMatches(request: Request, rules: Rules, list: seq<Object>, places: seq<nat>)
    requires IsValid(request, rules) && ListsProvided(request, rules, |FirstMatch(request)|, list, places)
    ensures ListsMatches(request, rules, list, places)
  {
    hide IsMatchOf, Provided, FirstMatch;
    forall k: nat | k < |FirstMatch(request)|
      ensures IsMatchOf(request, rules, k, Provided(request, rules, k))
    {
      ProvidedIsMatch(request, rules, k);
    }
  }

  /** Matching adds to what it is given, but takes nothing away. */
  ghost predicate KeepsWhatItIsGiven(rules: Rules) {
    forall x | rules.matching(x).Some? :: Holds(rules.matching(x).value, x)
  }

  /** Then every match holds all that is required, and all of its alternative. */
  lemma {:induction false} MatchHoldsRequired(request: Request, rules: Rules, k: nat, o: Object)
    requires IsValid(request, rules) && KeepsWhatItIsGiven(rules)
    requires k < |FirstMatch(request)| && IsMatchOf(request, rules, k, Some(o))
    ensures Holds(o, Required(request, rules)) && Holds(o, Own(request, rules, k))
  {
  }

  ghost predicate AllHoldRequired(request: Request, rules: Rules, list: seq<Object>)
    requires IsValid(request, rules)
  {
    forall i | 0 <= i < |list| :: Holds(list[i], Required(request, rules))
  }

  lemma {:induction false} MatchesHoldRequired(request: Request, rules: Rules, list: seq<Object>, places: seq<nat>)
    requires IsValid(request, rules) && ListsMatches(request, rules, list, places)
    ensures KeepsWhatItIsGiven(rules) ==> AllHoldRequired(request, rules, list)
  {
    hide IsMatchOf, Holds, Required, KeepsWhatItIsGiven;
    if KeepsWhatItIsGiven(rules) {
      forall i | 0 <= i < |list|
        ensures Holds(list[i], Required(request, rules))
      {
        MatchHoldsRequired(request, rules, places[i], list[i]);
      }
    }
  }

  /** A missing alwaysMatch requires nothing, and a missing firstMatch is one alternative
      that adds nothing. */
  lemma {:induction false} MissingMembers(always: Field<Object>, first: Field<seq<Option<Object>>>, rules: Rules)
    requires !always.Invalid? && !first.Invalid?
    ensures AlwaysMatch(Request(Absent, first)) == map[]
    ensures FirstMatch(Request(always, Absent)) == [Some(map[])]
    ensures IsValid(Request(Absent, first), rules) <==> IsValid(Request(Given(map[]), first), rules)
    ensures IsValid(Request(always, Absent), rules) <==> IsValid(Request(always, Given([Some(map[])])), rules)
  {
    assert AlwaysMatch(Request(Given(map[]), first)) == map[];
    assert FirstMatch(Request(Absent, first)) == FirstMatch(Request(Given(map[]), first));
    assert FirstMatch(Request(always, Given([Some(map[])]))) == [Some(map[])];
  }

  /** Of a valid alternative, the merged capabilities hold every required capability and
      every one of the alternative, whichever of the two is copied first. */
  lemma {:induction false} MergeLosesNothing(request: Request, rules: Rules, k: nat)
    requires IsValid(request, rules) && k < |FirstMatch(request)|
    ensures var required := rules.validate(AlwaysMatch(request)).value;
            var entry := FirstMatch(request)[k];
            && entry.Some? && rules.validate(entry.value).Some?
            && required + rules.validate(entry.value).value == rules.validate(entry.value).value + required
            && |required + rules.validate(entry.value).value| == |required| + |rules.validate(entry.value).value|
  {
    var required := rules.validate(AlwaysMatch(request)).value;
    assert AlternativeIsValid(required, FirstMatch(request)[k], rules);
    var own := rules.validate(FirstMatch(request)[k].value).value;
    DisjointMerge(required, own);
  }

  lemma {:induction false} DisjointMerge(a: Object, b: Object)
    requires a.Keys !! b.Keys
    ensures a + b == b + a && |a + b| == |a| + |b|
  {
    assert (a + b).Keys == a.Keys + b.Keys;
    assert |a + b| == |(a + b).Keys| && |a| == |a.Keys| && |b| == |b.Keys|;
  }

  lemma {:induction false} NothingYet(request: Request, rules: Rules)
    requires IsValid(request, rules)
    ensures ListsProvided(request, rules, 0, [], [])
  {
  }

  lemma {:induction false} OneMore(request: Request, rules: Rules, k: nat, list: seq<Object>, places: seq<nat>,
                                   more: seq<Object>, morePlaces: seq<nat>)
    requires IsValid(request, rules) && k < |FirstMatch(request)|
    requires ListsProvided(request, rules, k, list, places)
    requires var provided := Provided(request, rules, k);
             if provided.Some? then more == list + [provided.value] && morePlaces == places + [k]
             else more == list && morePlaces == places
    ensures ListsProvided(request, rules, k + 1, more, morePlaces)
  {
    hide IsValid, Provided, FirstMatch;
    assert forall j: nat | j in places :: j in morePlaces;
    assert Provided(request, rules, k).Some? ==> morePlaces[|places|] == k;
  }

  // ----- Attempts

  /** How many of the capabilities are tried after those of `past`: up to and including the
      first that does not come back as a mismatch. */
  function Tries(past: seq<Object>, list: seq<Object>, hosts: Hosts): (n: nat)
    ensures n <= |list| && (list != [] ==> n > 0)
    decreases |list|
  {
    if list == [] then 0
    else if hosts(past + [list[0]]) != Mismatch then 1
    else 1 + Tries(past + [list[0]], list[1..], hosts)
  }

  /** Everything before the last try was a mismatch, and only a mismatch goes on to the end. */
  lemma {:induction false} TriesMeans(past: seq<Object>, list: seq<Object>, hosts: Hosts)
    ensures var n := Tries(past, list, hosts);
            && (forall k {:trigger list[..k]} | 0 < k < n :: hosts(past + list[..k]) == Mismatch)
            && (n < |list| ==> hosts(past + list[..n]) != Mismatch)
    decreases |list|
  {
    if list != [] {
      var n := Tries(past, list, hosts);
      assert list[..1] == [list[0]];
      if hosts(past + [list[0]]) == Mismatch {
        var rest := list[1..];
        TriesMeans(past + [list[0]], rest, hosts);
        forall k {:trigger list[..k]} | 0 < k <= n
          ensures past + list[..k] == past + [list[0]] + rest[..k - 1]
        {
          assert list[..k] == [list[0]] + rest[..k - 1];
        }
        forall k {:trigger list[..k]} | 0 < k < n
          ensures hosts(past + list[..k]) == Mismatch
        {
          assert past + list[..k] == past + [list[0]] + rest[..k - 1];
          if k == 1 {
            assert rest[..0] == [];
          }
        }
      }
    }
  }

  function Answer(past: seq<Object>, list: seq<Object>, hosts: Hosts): Result {
    var n := Tries(past, list, hosts);
    if n == 0 then Fail(SessionNotCreated)
    else match hosts(past + list[..n])
      case StartFailed => Fail(UnknownError)
      case Started => Success(list[n - 1])
      case _ => Fail(SessionNotCreated)
  }

  lemma {:induction false} AnswerIsListed(past: seq<Object>, list: seq<Object>, hosts: Hosts)
    ensures Answer(past, list, hosts).Success? ==>
              exists k :: 0 <= k < |list| && list[k] == Answer(past, list, hosts).capabilities
  {
    var n := Tries(past, list, hosts);
    if n > 0 {
      assert list[n - 1] == list[n - 1];
    }
  }

  /** After a mismatch the rest of the list decides. */
  lemma {:induction false} AfterMismatch(past: seq<Object>, list: seq<Object>, hosts: Hosts)
    requires list != [] && hosts(past + [list[0]]) == Mismatch
    ensures Tries(past, list, hosts) == 1 + Tries(past + [list[0]], list[1..], hosts)
    ensures Answer(past, list, hosts) == Answer(past + [list[0]], list[1..], hosts)
  {
    var n := Tries(past + [list[0]], list[1..], hosts);
    assert past + [list[0]] + list[1..][..n] == past + list[..n + 1];
    assert list[..1] == [list[0]];
  }

  /** What became of number `k` of the list, with all before it tried. */
  function AttemptAt(past: seq<Object>, list: seq<Object>, hosts: Hosts, k: nat): Attempt
    requires k < |list|
  {
    hosts(past + list[..k + 1])
  }

  /** Number `k` of the list is the first that is no mismatch. */
  ghost predicate Settles(past: seq<Object>, list: seq<Object>, hosts: Hosts, k: nat) {
    && k < |list| && AttemptAt(past, list, hosts, k) != Mismatch
    && forall i | 0 <= i < k :: AttemptAt(past, list, hosts, i) == Mismatch
  }

  /** It decides: a session with its capabilities if it starts, an unknown error if its
      automation session fails, and otherwise no session. */
  lemma {:induction false} AnswerMeans(past: seq<Object>, list: seq<Object>, hosts: Hosts, k: nat)
    requires Settles(past, list, hosts, k)
    ensures Tries(past, list, hosts) == k + 1
    ensures match AttemptAt(past, list, hosts, k)
            case Started => Answer(past, list, hosts) == Success(list[k])
            case StartFailed => Answer(past, list, hosts) == Fail(UnknownError)
            case _ => Answer(past, list, hosts) == Fail(SessionNotCreated)
    decreases |list|
  {
    assert list[..1] == [list[0]];
    if k > 0 {
      assert AttemptAt(past, list, hosts, 0) == Mismatch;
      AfterMismatch(past, list, hosts);
      AttemptsMoveUp(past, list, hosts);
      AnswerMeans(past + [list[0]], list[1..], hosts, k - 1);
    }
  }

  lemma {:induction false} AttemptsMoveUp(past: seq<Object>, list: seq<Object>, hosts: Hosts)
    requires list != []
    ensures forall k | 0 <= k < |list| - 1 ::
              AttemptAt(past + [list[0]], list[1..], hosts, k) == AttemptAt(past, list, hosts, k + 1)
  {
    forall k | 0 <= k < |list| - 1
      ensures AttemptAt(past + [list[0]], list[1..], hosts, k) == AttemptAt(past, list, hosts, k + 1)
    {
      assert past + [list[0]] + list[1..][..k + 1] == past + list[..k + 2];
    }
  }

  /** If all are mismatches, or there is none, there is no session either. */
  lemma {:induction false} NoneSettles(past: seq<Object>, list: seq<Object>, hosts: Hosts)
    requires forall k | 0 <= k < |list| :: AttemptAt(past, list, hosts, k) == Mismatch
    ensures Tries(past, list, hosts) == |list| && Answer(past, list, hosts) == Fail(SessionNotCreated)
    decreases |list|
  {
    if list != [] {
      assert list[..1] == [list[0]];
      assert AttemptAt(past, list, hosts, 0) == Mismatch;
      AfterMismatch(past, list, hosts);
      AttemptsMoveUp(past, list, hosts);
      NoneSettles(past + [list[0]], list[1..], hosts);
    }
  }

  function Reverse(list: seq<Object>): (r: seq<Object>)
    ensures |r| == |list| && forall k | 0 <= k < |r| :: r[k] == list[|list| - 1 - k]
  {
    seq(|list|, k requires 0 <= k < |list| => list[|list| - 1 - k])
  }

  lemma {:induction false} ReverseTwice(list: seq<Object>)
    ensures Reverse(Reverse(list)) == list
  {
  }

  /** Whatever is tried, and whatever the session gets, holds all that is required. */
  lemma {:induction false} TriedHoldRequired(request: Request, rules: Rules, past: seq<Object>, list: seq<Object>,
                                             places: seq<nat>, hosts: Hosts)
    requires IsValid(request, rules) && ListsMatches(request, rules, list, places)
    ensures KeepsWhatItIsGiven(rules) ==>
              && AllHoldRequired(request, rules, list[..Tries(past, list, hosts)])
              && (Answer(past, list, hosts).Success? ==>
                    Holds(Answer(past, list, hosts).capabilities, Required(request, rules)))
  {
    hide KeepsWhatItIsGiven, Holds, Required, IsValid, ListsMatches;
    MatchesHoldRequired(request, rules, list, places);
    AnswerIsListed(past, list, hosts);
  }

  class Service {
    const rules: Rules
    const hosts: Hosts
    var session: Option<Object>
    /** Every call of the completion handler, and every browser started. */
    var completed: seq<Result>
    var tried: seq<Object>

    constructor (rules: Rules, hosts: Hosts)
      ensures this.rules == rules && this.hosts == hosts && session == None && completed == [] && tried == []
    {
      this.rules, this.hosts := rules, hosts;
      session, completed, tried := None, [], [];
    }

    method Complete(result: Result)
      modifies this`completed
      ensures completed == old(completed) + [result]
    {
      completed := completed + [result];
    }

    /** The handler is called exactly when nothing is returned, once, and says which of
        the two reasons it was. Otherwise the result lists what can be provided, in the
        order of the alternatives. */
    method ProcessCapabilities(capabilities: Option<Request>) returns (matched: seq<Object>, ghost places: seq<nat>)
      modifies this`completed
      ensures matched == [] <==> completed != old(completed)
      ensures matched == [] ==>
                completed == old(completed) + [Fail(if capabilities.Some? && IsValid(capabilities.value, rules)
                                                    then SessionNotCreated else InvalidArgument)]
      ensures matched != [] ==> capabilities.Some? && IsValid(capabilities.value, rules)
      ensures capabilities.Some? && IsValid(capabilities.value, rules) ==>
                && ListsProvided(capabilities.value, rules, |FirstMatch(capabilities.value)|, matched, places)
                && ListsMatches(capabilities.value, rules, matched, places)
    {
      hide ListsProvided, ListsMatches;
      matched, places := [], [];
      if capabilities == None {
        Complete(Fail(InvalidArgument));
        return;
      }
      var request := capabilities.value;
      if request.alwaysMatch.Invalid? {
        Complete(Fail(InvalidArgument));
        return;
      }
      var required := rules.validate(AlwaysMatch(request));
      if required == None {
        Complete(Fail(InvalidArgument));
        return;
      }
      if request.firstMatch.Invalid? {
        Complete(Fail(InvalidArgument));
        return;
      }
      var alternatives := FirstMatch(request);
      var validated: seq<Object> := [];
      for i := 0 to |alternatives|
        invariant completed == old(completed) && |validated| == i
        invariant forall k | 0 <= k < i ::
                    AlternativeIsValid(required.value, alternatives[k], rules)
                    && rules.validate(alternatives[k].value) == Some(validated[k])
      {
        if alternatives[i] == None {
          assert !AlternativeIsValid(required.value, alternatives[i], rules);
          Complete(Fail(InvalidArgument));
          return;
        }
        var own := rules.validate(alternatives[i].value);
        if own == None || !(own.value.Keys !! required.value.Keys) {
          assert !AlternativeIsValid(required.value, alternatives[i], rules);
          Complete(Fail(InvalidArgument));
          return;
        }
        assert AlternativeIsValid(required.value, alternatives[i], rules);
        validated := validated + [own.value];
      }
      assert IsValid(request, rules);
      NothingYet(request, rules);
      for i := 0 to |validated|
        invariant completed == old(completed)
        invariant ListsProvided(request, rules, i, matched, places)
      {
        var capable := rules.matching(required.value + validated[i]);
        assert capable == Provided(request, rules, i);
        ghost var list, was := matched, places;
        if capable.Some? {
          matched, places := matched + [capable.value], places + [i];
        }
        OneMore(request, rules, i, list, was, matched, places);
      }
      ProvidedAreMatches(request, rules, matched, places);
      if matched == [] {
        Complete(Fail(SessionNotCreated));
      }
    }

    /** Takes the last of the list, and starts over with the rest of it on a mismatch. */
    method ConnectToBrowser(list: seq<Object>)
      modifies this
      ensures completed == old(completed) + [Answer(old(tried), Reverse(list), hosts)]
      ensures tried == old(tried) + Reverse(list)[..Tries(old(tried), Reverse(list), hosts)]
      ensures session == if Answer(old(tried), Reverse(list), hosts).Success?
                         then Some(Answer(old(tried), Reverse(list), hosts).capabilities)
                         else old(session)
      decreases |list|, 1
    {
      if list == [] {
        Complete(Fail(SessionNotCreated));
        return;
      }
      var last := |list| - 1;
      var rest, capabilities := list[..last], list[last];
      assert Reverse(list) == [capabilities] + Reverse(rest);
      assert Reverse(list)[..1] == [capabilities];
      ghost var past := tried;
      tried := tried + [capabilities];
      if hosts(tried) == NoConnection {
        Complete(Fail(SessionNotCreated));
        return;
      }
      CreateSession(rest, capabilities, past);
    }

    method CreateSession(rest: seq<Object>, capabilities: Object, ghost past: seq<Object>)
      requires tried == past + [capabilities] && !hosts(tried).NoConnection?
      modifies this
      ensures var all := [capabilities] + Reverse(rest);
              && completed == old(completed) + [Answer(past, all, hosts)]
              && tried == past + all[..Tries(past, all, hosts)]
              && session == if Answer(past, all, hosts).Success? then Some(Answer(past, all, hosts).capabilities)
                            else old(session)
      decreases |rest|, 2
    {
      ghost var all := [capabilities] + Reverse(rest);
      assert all[1..] == Reverse(rest) && all[..1] == [capabilities];
      if hosts(tried) == StartFailed {
        Complete(Fail(UnknownError));
        return;
      }
      if hosts(tried) == Mismatch {
        AfterMismatch(past, all, hosts);
        ghost var n := Tries(tried, Reverse(rest), hosts);
        assert past + all[..n + 1] == tried + Reverse(rest)[..n];
        ConnectToBrowser(rest);
        return;
      }
      if hosts(tried) == NoContext {
        Complete(Fail(SessionNotCreated));
        return;
      }
      session := Some(capabilities);
      Complete(Success(capabilities));
    }

    /** Whatever happens, the handler is called once. Browsers are started in the order of
        the alternatives, until one is not a mismatch. */
    method NewSession(capabilities: Option<Request>) returns (ghost matched: seq<Object>, ghost places: seq<nat>)
      modifies this
      ensures |completed| == |old(completed)| + 1 && completed[..|old(completed)|] == old(completed)
      ensures old(session).Some? ==>
                tried == old(tried) && session == old(session) && completed[|old(completed)|] == Fail(SessionNotCreated)
      ensures old(tried) <= tried
      ensures old(session) == None ==>
                if capabilities.Some? && IsValid(capabilities.value, rules) then
                  && ListsProvided(capabilities.value, rules, |FirstMatch(capabilities.value)|, matched, places)
                  && ListsMatches(capabilities.value, rules, matched, places)
                  && (KeepsWhatItIsGiven(rules) ==>
                        && AllHoldRequired(capabilities.value, rules, tried[|old(tried)|..])
                        && (session.Some? ==> Holds(session.value, Required(capabilities.value, rules))))
                  && completed[|old(completed)|] == Answer(old(tried), matched, hosts)
                  && tried == old(tried) + matched[..Tries(old(tried), matched, hosts)]
                else
                  completed[|old(completed)|] == Fail(InvalidArgument) && tried == old(tried)
      ensures old(session) == None ==>
                session == if completed[|old(completed)|].Success? then Some(completed[|old(completed)|].capabilities) else None
    {
      hide IsValid, ListsProvided, ListsMatches, AllHoldRequired, Holds, Answer, Tries, Reverse, KeepsWhatItIsGiven;
      matched, places := [], [];
      if session.Some? {
        Complete(Fail(SessionNotCreated));
        return;
      }
      var list;
      list, places := ProcessCapabilities(capabilities);
      matched := list;
      if capabilities.Some? && IsValid(capabilities.value, rules) {
        TriedHoldRequired(capabilities.value, rules, tried, list, places, hosts);
      }
      if list == [] {
        NoneSettles(tried, list, hosts);
        assert tried[|tried|..] == list[..0];
        return;
      }
      ReverseTwice(list);
      ghost var past := tried;
      ConnectToBrowser(Reverse(list));
      assert tried[|past|..] == list[..Tries(past, list, hosts)];
    }
  }
}
