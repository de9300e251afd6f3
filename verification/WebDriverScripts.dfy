/** Element references in script arguments and script results. A client names an element
    by the web element identifier, the backend by a key of the session's own. */
module WebDriverScripts {
  import opened Wrappers

  datatype Json = Null | Atom(code: int) | Text(text: string) | List(items: seq<Json>) | Object(members: seq<Member>)
  datatype Member = Member(key: string, value: Json)

  const WEB_ELEMENT := "element-6066-11e4-a52e-4f735466cecf"

  function NodeKey(session: string): string { "session-node-" + session }

  /** The text of the member `key`, if there is one and it is a text. */
  function GetString(members: seq<Member>, key: string): Option<string> {
    if members == [] then None
    else if members[0].key != key then GetString(members[1..], key)
    else if members[0].value.Text? then Some(members[0].value.text)
    else None
  }

  function Reference(key: string, id: string): Json { Object([Member(key, Text(id))]) }

  /** From the backend's form to the client's. */
  function CreateElement(v: Json, session: string): Option<Json> {
    if !v.Object? || GetString(v.members, NodeKey(session)) == None then None
    else Some(Reference(WEB_ELEMENT, GetString(v.members, NodeKey(session)).value))
  }

  /** "" when this is no reference to an element. */
  function ExtractElementID(v: Json): string {
    if !v.Object? || GetString(v.members, WEB_ELEMENT) == None then ""
    else GetString(v.members, WEB_ELEMENT).value
  }

  /** An argument as it is sent: only an argument that is a reference itself is rewritten. */
  function Argument(v: Json, session: string): Json {
    if ExtractElementID(v) != "" then Reference(NodeKey(session), ExtractElementID(v)) else v
  }

  /** A result as it is reported: references are rewritten wherever they are. */
  function HandleScriptResult(v: Json, session: string): Json {
    match v
    case List(items) =>
      List(seq(|items|, i requires 0 <= i < |items| => HandleScriptResult(items[i], session)))
    case Object(members) =>
      if CreateElement(v, session).Some? then CreateElement(v, session).value
      else
        Object(seq(|members|, i requires 0 <= i < |members| =>
                     Member(members[i].key, HandleScriptResult(members[i].value, session))))
    case _ => v
  }

  /** Somewhere in `v` an object holds a text under the session's own key. */
  ghost predicate HoldsNode(v: Json, session: string) {
    match v
    case List(items) => exists i {:trigger items[i]} :: 0 <= i < |items| && HoldsNode(items[i], session)
    case Object(members) =>
      || GetString(members, NodeKey(session)).Some?
      || exists i {:trigger members[i]} :: 0 <= i < |members| && HoldsNode(members[i].value, session)
    case _ => false
  }

  lemma {:induction false} KeysDiffer(session: string)
    ensures NodeKey(session) != WEB_ELEMENT
  {
    assert NodeKey(session)[0] == 's' && WEB_ELEMENT[0] == 'e';
  }

  /** Rewriting the members of an object turns none into a text. */
  lemma {:induction false} TextsStay(members: seq<Member>, rewritten: seq<Member>, key: string, session: string)
    requires |members| == |rewritten|
    requires forall i | 0 <= i < |members| ::
               rewritten[i] == Member(members[i].key, HandleScriptResult(members[i].value, session))
    ensures GetString(rewritten, key) == GetString(members, key)
  {
    if members != [] {
      TextsStay(members[1..], rewritten[1..], key, session);
    }
  }

  lemma {:induction false} ReferenceHoldsNoNode(id: string, session: string)
    ensures !HoldsNode(Reference(WEB_ELEMENT, id), session)
  {
    KeysDiffer(session);
    var members := [Member(WEB_ELEMENT, Text(id))];
    assert GetString(members[1..], NodeKey(session)) == None;
    assert !HoldsNode(members[0].value, session);
  }

  /** A client never sees the session's own key. */
  lemma {:induction false} ResultHoldsNoNode(v: Json, session: string)
    ensures !HoldsNode(HandleScriptResult(v, session), session)
  {
    var r := HandleScriptResult(v, session);
    match v
    case List(items) =>
      forall i | 0 <= i < |items|
        ensures !HoldsNode(r.items[i], session)
      {
        ResultHoldsNoNode(items[i], session);
      }
    case Object(members) =>
      if CreateElement(v, session) == None {
        TextsStay(members, r.members, NodeKey(session), session);
        forall i | 0 <= i < |members|
          ensures !HoldsNode(r.members[i].value, session)
        {
          ResultHoldsNoNode(members[i].value, session);
        }
      } else {
        ReferenceHoldsNoNode(GetString(members, NodeKey(session)).value, session);
      }
    case _ =>
  }

  /** A result is reported as it is exactly when no such key is in it. */
  lemma {:induction false} ResultUnchanged(v: Json, session: string)
    ensures HandleScriptResult(v, session) == v <==> !HoldsNode(v, session)
  {
    if HandleScriptResult(v, session) == v {
      ResultHoldsNoNode(v, session);
    }
    if !HoldsNode(v, session) {
      var r := HandleScriptResult(v, session);
      match v
      case List(items) =>
        forall i | 0 <= i < |items|
          ensures r.items[i] == items[i]
        {
          ResultUnchanged(items[i], session);
        }
        assert r.items == items;
      case Object(members) =>
        forall i | 0 <= i < |members|
          ensures r.members[i] == members[i]
        {
          ResultUnchanged(members[i].value, session);
        }
        assert r.members == members;
      case _ =>
    }
  }

  /** A script that returns its argument: what comes back is what was sent exactly when
      the argument is a plain reference, or is no reference and does not hold the
      session's own key anywhere. */
  lemma {:induction false} ArgumentComesBack(v: Json, session: string)
    ensures HandleScriptResult(Argument(v, session), session) == v
       <==> if ExtractElementID(v) != "" then v == Reference(WEB_ELEMENT, ExtractElementID(v))
            else !HoldsNode(v, session)
  {
    if ExtractElementID(v) != "" {
      var sent := Reference(NodeKey(session), ExtractElementID(v));
      assert GetString(sent.members, NodeKey(session)) == Some(ExtractElementID(v));
    } else {
      ResultUnchanged(v, session);
    }
  }

  // ----- A result, place by place

  /** The value of item or member number i. */
  function Child(v: Json, i: nat): Option<Json> {
    match v
    case List(items) => if i < |items| then Some(items[i]) else None
    case Object(members) => if i < |members| then Some(members[i].value) else None
    case _ => None
  }

  /** The value at the end of a path of such numbers. */
  function At(v: Json, path: seq<nat>): Option<Json> {
    if path == [] then Some(v)
    else match Child(v, path[0])
      case Some(c) => At(c, path[1..])
      case None => None
  }

  /** An object with a text under the session's own key, which is the backend's form of a
      reference. */
  predicate IsNode(v: Json, session: string) {
    v.Object? && GetString(v.members, NodeKey(session)).Some?
  }

  /** The path leads somewhere in `v`, and not through such an object. */
  predicate LeadsOn(v: Json, path: seq<nat>, session: string) {
    path == [] ||
    (!IsNode(v, session) && Child(v, path[0]).Some? && LeadsOn(Child(v, path[0]).value, path[1..], session))
  }

  /** What is reported at a place: the client's reference to the element that is there, or
      the same kind of value, with as many items, or members under the same keys. */
  predicate ReportsHere(v: Json, r: Json, session: string) {
    if IsNode(v, session) then
      r == Object([Member(WEB_ELEMENT, Text(GetString(v.members, NodeKey(session)).value))])
    else match v
      case List(items) => r.List? && |r.items| == |items|
      case Object(members) =>
        r.Object? && |r.members| == |members| && forall i | 0 <= i < |members| :: r.members[i].key == members[i].key
      case _ => r == v
  }

  ghost predicate IsReportOf(v: Json, r: Json, session: string) {
    forall path | LeadsOn(v, path, session) :: ReportsAt(v, r, path, session)
  }

  predicate ReportsAt(v: Json, r: Json, path: seq<nat>, session: string) {
    At(v, path).Some? && At(r, path).Some? && ReportsHere(At(v, path).value, At(r, path).value, session)
  }

  /** Each reference of a result is translated, wherever it is, and all else stays. */
  lemma {:induction false} ResultIsReport(v: Json, session: string)
    ensures IsReportOf(v, HandleScriptResult(v, session), session)
  {
    forall path | LeadsOn(v, path, session)
      ensures ReportsAt(v, HandleScriptResult(v, session), path, session)
    {
      ResultReportsAt(v, path, session);
    }
  }

  lemma {:induction false} ResultReportsAt(v: Json, path: seq<nat>, session: string)
    requires LeadsOn(v, path, session)
    ensures ReportsAt(v, HandleScriptResult(v, session), path, session)
    decreases |path|
  {
    if path != [] {
      ResultReportsAt(Child(v, path[0]).value, path[1..], session);
    }
  }

  /** That determines the result. */
  lemma {:induction false} OnlyOneReport(v: Json, r: Json, other: Json, session: string)
    requires IsReportOf(v, r, session) && IsReportOf(v, other, session)
    ensures r == other
  {
    assert LeadsOn(v, [], session);
    assert ReportsAt(v, r, [], session) && ReportsAt(v, other, [], session);
    if !IsNode(v, session) {
      match v
      case List(items) =>
        forall i | 0 <= i < |items|
          ensures r.items[i] == other.items[i]
        {
          ReportOfChild(v, r, i, session);
          ReportOfChild(v, other, i, session);
          OnlyOneReport(items[i], r.items[i], other.items[i], session);
        }
        assert r.items == other.items;
      case Object(members) =>
        forall i | 0 <= i < |members|
          ensures r.members[i] == other.members[i]
        {
          ReportOfChild(v, r, i, session);
          ReportOfChild(v, other, i, session);
          OnlyOneReport(members[i].value, r.members[i].value, other.members[i].value, session);
        }
        assert r.members == other.members;
      case _ =>
    }
  }

  lemma {:induction false} ReportOfChild(v: Json, r: Json, i: nat, session: string)
    requires IsReportOf(v, r, session) && !IsNode(v, session) && Child(v, i).Some?
    ensures Child(r, i).Some? && IsReportOf(Child(v, i).value, Child(r, i).value, session)
  {
    var c := Child(v, i).value;
    assert LeadsOn(v, [], session);
    assert ReportsAt(v, r, [], session);
    forall path | LeadsOn(c, path, session)
      ensures ReportsAt(c, Child(r, i).value, path, session)
    {
      assert ([i] + path)[1..] == path;
      assert LeadsOn(v, [i] + path, session);
      assert ReportsAt(v, r, [i] + path, session);
    }
  }

  /** With distinct keys, the text of a member is found exactly when it is there. */
  lemma {:induction false} GetStringFinds(members: seq<Member>, key: string, text: string)
    requires forall i, j | 0 <= i < j < |members| :: members[i].key != members[j].key
    ensures GetString(members, key) == Some(text) <==> Member(key, Text(text)) in members
  {
    if members != [] {
      GetStringFinds(members[1..], key, text);
      assert members == [members[0]] + members[1..];
      if members[0].key == key {
        assert forall m | m in members[1..] :: m.key != key;
      }
    }
  }

  // ----- What reaches the backend

  /** Somewhere in `v` an object names an element in the client's form. */
  ghost predicate HoldsReference(v: Json) {
    match v
    case List(items) => exists i {:trigger items[i]} :: 0 <= i < |items| && HoldsReference(items[i])
    case Object(members) =>
      || ExtractElementID(v) != ""
      || exists i {:trigger members[i]} :: 0 <= i < |members| && HoldsReference(members[i].value)
    case _ => false
  }

  /** The backend is spared the client's form exactly when the argument is a reference
      itself or has none in it: a reference inside of a list or an object stays as it is. */
  lemma {:induction false} ArgumentHoldsReference(v: Json, session: string)
    ensures HoldsReference(Argument(v, session)) <==> ExtractElementID(v) == "" && HoldsReference(v)
  {
    if ExtractElementID(v) != "" {
      KeysDiffer(session);
      var sent := Reference(NodeKey(session), ExtractElementID(v));
      assert GetString(sent.members[1..], WEB_ELEMENT) == None;
      assert !HoldsReference(sent.members[0].value);
    }
  }

  /** A list of one element reaches the backend unchanged, without the key that the backend knows. */
  lemma {:induction false} NestedReferenceStays(id: string, session: string)
    requires id != ""
    ensures var v := List([Reference(WEB_ELEMENT, id)]);
            Argument(v, session) == v && HoldsReference(Argument(v, session)) && !HoldsNode(Argument(v, session), session)
  {
    var inner := Reference(WEB_ELEMENT, id);
    ReferenceHoldsNoNode(id, session);
    assert ExtractElementID(inner) == id;
    assert HoldsReference(List([inner])) by {
      assert HoldsReference([inner][0]);
    }
  }
}
