/** The dependency-free RO-Crate reader of the openBIS dropbox
    (`ContentWrapper` with its nested `Root_data`, `DataEntry` and
    `CreateAction`). It follows `hasPart`, `creator` and `instrument` links
    from the root `./` to a flat record plus one error string, where every
    failing step OVERWRITES the error of the steps before it. */
module Receiver {

  import opened Json
  import opened Graph

  const ROOT_ID := "./"

  /** What one lookup step of the wrapper hands back: the value it extracted
      and, when the step assigns `self.err`, the message it assigns. */
  datatype Step<T> = Step(value: T, err: Option<string>)

  // ---------------------------------------------------------------------
  // CreateAction: the provenance action whose `object` is the root
  // ---------------------------------------------------------------------

  /** The state a `CreateAction` object ends in: the action found (`item`)
      and the search trace it accumulated in its own `err`. */
  datatype ActionSearch = ActionSearch(item: Option<Node>, err: string)

  /** `o.get("object")['@id']`, used in a string concatenation: the `object`
      must be a dict with an `@id` (else TypeError on None and non-dicts,
      KeyError on a dict without it) and the id must be a string (else the
      concatenation raises TypeError). */
  function ActionObjectId(o: Node): Outcome<string>
  {
    match Get(o, "object")
    case JObj(m) =>
      if "@id" !in m then Raised(KeyError)
      else if m["@id"].JStr? then Ok(m["@id"].s)
      else Raised(TypeError)
    case _ => Raised(TypeError)
  }

  /** The text appended to the action's `err` for each action it checks. */
  function Trace(id: string): string
  {
    "Search for './', Check " + id
  }

  /** Actions before position `i` have a readable object id that differs
      from the one searched for. */
  predicate MissedBefore(actions: seq<Node>, objectId: string, i: int)
    requires 0 <= i <= |actions|
  {
    forall j :: 0 <= j < i ==>
      ActionObjectId(actions[j]).Ok? && ActionObjectId(actions[j]).value != objectId
  }

  /** The traces of the first `n` actions, in order (the search never gets
      past an action whose object id is unreadable, so such an action adds
      nothing here). */
  function Traces(actions: seq<Node>, n: nat): string
    requires n <= |actions|
  {
    if n == 0 then ""
    else
      var t := match ActionObjectId(actions[0]) case Ok(id) => Trace(id) case Raised(_) => "";
      t + Traces(actions[1..], n - 1)
  }

  /** The loop of `CreateAction.parse`, continuing from trace `err`: the first
      action whose object id equals `objectId`, with every checked action's
      trace and "-- found" appended; no action and the full trace when the
      list ends; the exception of the first unreadable object id otherwise. */
  function SearchActions(actions: seq<Node>, objectId: string, err: string): Outcome<ActionSearch>
  {
    if actions == [] then Ok(ActionSearch(None, err))
    else
      var id :- ActionObjectId(actions[0]);
      var err' := err + Trace(id);
      if id == objectId then Ok(ActionSearch(Some(actions[0]), err' + "-- found"))
      else SearchActions(actions[1..], objectId, err')
  }

  /** `CreateAction.parse` returns the FIRST action whose object id is the
      one searched for, after appending the trace of every action it checked
      and "-- found". */
  lemma {:induction false} SearchActionsFound(actions: seq<Node>, objectId: string, err: string, i: nat)
    requires i < |actions| && ActionObjectId(actions[i]) == Ok(objectId)
    requires MissedBefore(actions, objectId, i)
    ensures SearchActions(actions, objectId, err) ==
      Ok(ActionSearch(Some(actions[i]), err + Traces(actions, i + 1) + "-- found"))
  {
    if i == 0 {
      assert Traces(actions, 1) == Trace(objectId);
    } else {
      MissedBeforeTail(actions, objectId, i);
      var t := Trace(ActionObjectId(actions[0]).value);
      assert actions[1..][i - 1] == actions[i];
      SearchActionsFound(actions[1..], objectId, err + t, i - 1);
      assert Traces(actions, i + 1) == t + Traces(actions[1..], i);
      assert err + t + Traces(actions[1..], i) + "-- found" == err + Traces(actions, i + 1) + "-- found";
    }
  }

  /** When every object id is readable and differs, `parse` returns None and
      the trace of every action. */
  lemma {:induction false} SearchActionsMissed(actions: seq<Node>, objectId: string, err: string)
    requires MissedBefore(actions, objectId, |actions|)
    ensures SearchActions(actions, objectId, err) ==
      Ok(ActionSearch(None, err + Traces(actions, |actions|)))
  {
    if actions == [] {
      assert err + Traces(actions, 0) == err;
    } else {
      MissedBeforeTail(actions, objectId, |actions|);
      var t := Trace(ActionObjectId(actions[0]).value);
      var tail := actions[1..];
      var rest := Traces(tail, |tail|);
      calc {
        SearchActions(actions, objectId, err);
        SearchActions(tail, objectId, err + t);
        { SearchActionsMissed(tail, objectId, err + t); }
        Ok(ActionSearch(None, err + t + rest));
        { assert err + t + rest == err + (t + rest); }
        Ok(ActionSearch(None, err + (t + rest)));
        { assert Traces(actions, |actions|) == t + rest; }
        Ok(ActionSearch(None, err + Traces(actions, |actions|)));
      }
    }
  }

  /** `parse` raises the exception of the first unreadable object id, when
      no earlier action matched. */
  lemma {:induction false} SearchActionsRaises(actions: seq<Node>, objectId: string, err: string, i: nat)
    requires i < |actions| && ActionObjectId(actions[i]).Raised?
    requires MissedBefore(actions, objectId, i)
    ensures SearchActions(actions, objectId, err) == Raised(ActionObjectId(actions[i]).error)
  {
    if i > 0 {
      MissedBeforeTail(actions, objectId, i);
      assert actions[1..][i - 1] == actions[i];
      SearchActionsRaises(actions[1..], objectId, err + Trace(ActionObjectId(actions[0]).value), i - 1);
    }
  }

  /** Dropping a first action that was checked and missed shifts the
      "missed before" position by one. */
  lemma MissedBeforeTail(actions: seq<Node>, objectId: string, i: nat)
    requires 0 < i <= |actions| && MissedBefore(actions, objectId, i)
    ensures ActionObjectId(actions[0]).Ok? && ActionObjectId(actions[0]).value != objectId
    ensures MissedBefore(actions[1..], objectId, i - 1)
  {
    forall j | 0 <= j < i - 1
      ensures ActionObjectId(actions[1..][j]).Ok? && ActionObjectId(actions[1..][j]).value != objectId
    {
      assert actions[1..][j] == actions[j + 1];
    }
  }

  /** A `CreateAction(json_data)` object: its `err` starts empty and its
      `item` is `parse(json_data, objectId)` over the nodes of type
      "CreateAction". */
  function CreateActionSearch(data: JValue, objectId: string): Outcome<ActionSearch>
  {
    var actions :- FindObjectByType(data, "CreateAction");
    SearchActions(actions, objectId, "")
  }

  /** `CreateAction.__init__` and `parse`: the scan loop appending to `err`. */
  method CreateAction(data: JValue, objectId: string) returns (r: Outcome<ActionSearch>)
    ensures r == CreateActionSearch(data, objectId)
  {
    var objects := FindObjectByType(data, "CreateAction");
    if objects.Raised? {
      return Raised(objects.error);
    }
    var actions := objects.value;
    var err := "";
    var i := 0;
    while i < |actions|
      invariant 0 <= i <= |actions|
      invariant SearchActions(actions, objectId, "") == SearchActions(actions[i..], objectId, err)
    {
      assert actions[i..][0] == actions[i] && actions[i..][1..] == actions[i + 1..];
      var o := actions[i];
      var id := ActionObjectId(o);
      if id.Raised? {
        return Raised(id.error);
      }
      err := err + Trace(id.value);
      if id.value == objectId {
        err := err + "-- found";
        return Ok(ActionSearch(Some(o), err));
      }
      i := i + 1;
    }
    return Ok(ActionSearch(None, err));
  }

  // ---------------------------------------------------------------------
  // The three resolution steps of ContentWrapper
  // ---------------------------------------------------------------------

  /** `Root_data`: the `./` node. When there is none, its constructor calls
      `.get` on None and raises AttributeError; otherwise the `Root_data`
      object is always truthy, so the "No Root entry" branch of
      `getRootItem` never runs. */
  function RootNode(data: JValue): (r: Outcome<Node>)
    ensures FindObjectById(data, JStr(ROOT_ID)) == Ok(None) ==> r == Raised(AttributeError)
    ensures r.Ok? ==> FindObjectById(data, JStr(ROOT_ID)) == Ok(Some(r.value))
  {
    var root :- FindObjectById(data, JStr(ROOT_ID));
    if root.None? then Raised(AttributeError) else Ok(root.value)
  }

  /** `parse_SoftwareName`: the `name` of the node the root's CreateAction
      names as `instrument`. The `if obj:` test is on a `CreateAction`
      object, which is always truthy, so "Error parsing CreateAction" is
      never assigned. */
  function SoftwareName(data: JValue): Outcome<Step<JValue>>
  {
    var search :- CreateActionSearch(data, ROOT_ID);
    if !FoundTruthy(search.item) then
      Ok(Step(JNull, Some("Can't parse CreateAction item: " + search.err)))
    else
      var link :- LinkedId(Get(search.item.value, "instrument"));
      if link.None? then Ok(Step(JNull, None))
      else
        var software :- FindObjectById(data, link.value);
        if FoundTruthy(software) then Ok(Step(Get(software.value, "name"), None))
        else Ok(Step(JNull, Some("Error pasring SoftwareApplication")))
  }

  /** The fields the wrapper copies from a `DataEntry`. */
  datatype DataFields = DataFields(user: JValue, objType: JValue, value: JValue, objName: JValue)

  const NO_DATA := DataFields(JNull, JNull, JNull, JNull)

  /** `DataEntry.parseCreator`: the `alternateName` of the node behind the
      dataset's `creator` link; None when a link or a node is missing. */
  function CreatorName(data: JValue, dataset: Option<Node>): Outcome<JValue>
  {
    if !FoundTruthy(dataset) then Ok(JNull)
    else
      var link :- LinkedId(Get(dataset.value, "creator"));
      if link.None? then Ok(JNull)
      else
        var creator :- FindObjectById(data, link.value);
        if FoundTruthy(creator) then Ok(Get(creator.value, "alternateName")) else Ok(JNull)
  }

  /** `DataEntry(json_data, id)`: the creator is resolved first; a missing
      dataset node then raises AttributeError at `self.dataset.get`. */
  function DataEntry(data: JValue, id: JValue): Outcome<DataFields>
  {
    var dataset :- FindObjectById(data, id);
    var user :- CreatorName(data, dataset);
    if dataset.None? then Raised(AttributeError)
    else Ok(DataFields(user, Get(dataset.value, "additionalType"),
                       Get(dataset.value, "text"), Get(dataset.value, "name")))
  }

  /** `parseData`: follow the root's `hasPart` link. */
  function ParseData(data: JValue, root: Node): Outcome<Step<DataFields>>
  {
    var link :- LinkedId(Get(root, "hasPart"));
    if link.None? then Ok(Step(NO_DATA, Some("No Data entry")))
    else
      var fields :- DataEntry(data, link.value);
      Ok(Step(fields, None))
  }

  // ---------------------------------------------------------------------
  // ContentWrapper
  // ---------------------------------------------------------------------

  /** The attributes of a constructed `ContentWrapper`. */
  datatype Content = Content(
    err: string,
    softwareName: JValue,
    rootType: JValue,
    rootId: JValue,
    user: JValue,
    objType: JValue,
    value: JValue,
    objName: JValue)

  /** The message of the last step that assigned one, or `init` when none did. */
  function LastError(init: string, steps: seq<Option<string>>): (e: string)
    ensures e == init || exists k :: 0 <= k < |steps| && steps[k] == Some(e)
    ensures (forall k :: 0 <= k < |steps| ==> steps[k].None?) ==> e == init
    ensures |steps| > 0 && steps[|steps| - 1].Some? ==> e == steps[|steps| - 1].value
    ensures forall k ::
      (0 <= k < |steps| && steps[k].Some? && forall j :: k < j < |steps| ==> steps[j].None?) ==>
        e == steps[k].value
  {
    if steps == [] then init
    else if steps[|steps| - 1].Some? then steps[|steps| - 1].value
    else LastError(init, steps[..|steps| - 1])
  }

  /** What `ContentWrapper(json_data)` produces, step by step: the root,
      then the software name, then the data entry; the error is the message
      of the last failing step. */
  function ContentOf(data: JValue): Outcome<Content>
  {
    var root :- RootNode(data);
    var software :- SoftwareName(data);
    var entry :- ParseData(data, root);
    Ok(Content(
      LastError("", [software.err, entry.err]),
      software.value,
      Get(root, "additionalType"),
      Get(root, "identifier"),
      entry.value.user, entry.value.objType, entry.value.value, entry.value.objName))
  }

  /** How the three steps combine when none of them raises. */
  lemma ContentOfSteps(data: JValue, root: Node, software: Step<JValue>, entry: Step<DataFields>)
    requires RootNode(data) == Ok(root)
    requires SoftwareName(data) == Ok(software)
    requires ParseData(data, root) == Ok(entry)
    ensures ContentOf(data) == Ok(Content(
      LastError("", [software.err, entry.err]), software.value,
      Get(root, "additionalType"), Get(root, "identifier"),
      entry.value.user, entry.value.objType, entry.value.value, entry.value.objName))
  {
  }

  /** `ContentWrapper.__init__`: the constructor sets its attributes one
      after another and overwrites `err` at every failing step. */
  method NewContentWrapper(data: JValue) returns (r: Outcome<Content>)
    ensures r == ContentOf(data)
  {
    var err := "";
    // parseRoot
    var found := FindObjectById(data, JStr(ROOT_ID));
    if found.Raised? {
      return Raised(found.error);
    }
    if found.value.None? {
      return Raised(AttributeError);
    }
    var root := found.value.value;
    var software := ParseSoftwareName(data);
    if software.Raised? {
      return Raised(software.error);
    }
    if software.value.err.Some? {
      err := software.value.err.value;
    }
    var rootType := Get(root, "additionalType");
    var rootId := Get(root, "identifier");
    var entry := ParseDataEntry(data, root);
    if entry.Raised? {
      return Raised(entry.error);
    }
    if entry.value.err.Some? {
      err := entry.value.err.value;
    }
    var fields := entry.value.value;
    ContentOfSteps(data, root, software.value, entry.value);
    r := Ok(Content(err, software.value.value, rootType, rootId,
                    fields.user, fields.objType, fields.value, fields.objName));
  }

  /** `parse_SoftwareName` as the constructor runs it. */
  method ParseSoftwareName(data: JValue) returns (r: Outcome<Step<JValue>>)
    ensures r == SoftwareName(data)
  {
    var action := CreateAction(data, ROOT_ID);
    if action.Raised? {
      return Raised(action.error);
    }
    if !FoundTruthy(action.value.item) {
      return Ok(Step(JNull, Some("Can't parse CreateAction item: " + action.value.err)));
    }
    var linked := LinkedId(Get(action.value.item.value, "instrument"));
    if linked.Raised? {
      return Raised(linked.error);
    }
    if linked.value.None? {
      return Ok(Step(JNull, None));
    }
    var software := FindObjectById(data, linked.value.value);
    if software.Raised? {
      return Raised(software.error);
    }
    if FoundTruthy(software.value) {
      return Ok(Step(Get(software.value.value, "name"), None));
    }
    return Ok(Step(JNull, Some("Error pasring SoftwareApplication")));
  }

  /** `parseData` as the constructor runs it. */
  method ParseDataEntry(data: JValue, root: Node) returns (r: Outcome<Step<DataFields>>)
    ensures r == ParseData(data, root)
  {
    var hasPart := LinkedId(Get(root, "hasPart"));
    if hasPart.Raised? {
      return Raised(hasPart.error);
    }
    if hasPart.value.None? {
      return Ok(Step(NO_DATA, Some("No Data entry")));
    }
    var entry := DataEntry(data, hasPart.value.value);
    if entry.Raised? {
      return Raised(entry.error);
    }
    return Ok(Step(entry.value, None));
  }

  // ---------------------------------------------------------------------
  // What the wrapper promises
  // ---------------------------------------------------------------------

  /** `parse_SoftwareName`, case 1: the instrument target exists, and its
      `name` is the software name; `err` is not touched. */
  lemma SoftwareNameFound(data: JValue, action: Node, search: string, target: JValue, software: Node)
    requires CreateActionSearch(data, ROOT_ID) == Ok(ActionSearch(Some(action), search))
    requires LinkedId(Get(action, "instrument")) == Ok(Some(target))
    requires FindObjectById(data, target) == Ok(Some(software)) && software != map[]
    ensures SoftwareName(data) == Ok(Step(Get(software, "name"), None))
  {
    assert action != map[] by { ActionSearchFoundHasObject(data, action, search); }
  }

  /** Case 2: the instrument target is missing. */
  lemma SoftwareNameTargetMissing(data: JValue, action: Node, search: string, target: JValue)
    requires CreateActionSearch(data, ROOT_ID) == Ok(ActionSearch(Some(action), search))
    requires LinkedId(Get(action, "instrument")) == Ok(Some(target))
    requires FindObjectById(data, target) == Ok(None)
    ensures SoftwareName(data) == Ok(Step(JNull, Some("Error pasring SoftwareApplication")))
  {
    assert action != map[] by { ActionSearchFoundHasObject(data, action, search); }
  }

  /** Case 3: no action has the root as its object; the error carries the
      action's search trace. */
  lemma SoftwareNameNoAction(data: JValue, search: string)
    requires CreateActionSearch(data, ROOT_ID) == Ok(ActionSearch(None, search))
    ensures SoftwareName(data) == Ok(Step(JNull, Some("Can't parse CreateAction item: " + search)))
  {
  }

  /** Case 4: the instrument link is absent or has no `@id`; `err` is not
      touched. */
  lemma SoftwareNameNoLink(data: JValue, action: Node, search: string)
    requires CreateActionSearch(data, ROOT_ID) == Ok(ActionSearch(Some(action), search))
    requires LinkedId(Get(action, "instrument")) == Ok(None)
    ensures SoftwareName(data) == Ok(Step(JNull, None))
  {
    assert action != map[] by { ActionSearchFoundHasObject(data, action, search); }
  }

  /** A found action has an `object`, so it is a non-empty (truthy) dict. */
  lemma ActionSearchFoundHasObject(data: JValue, action: Node, search: string)
    requires CreateActionSearch(data, ROOT_ID) == Ok(ActionSearch(Some(action), search))
    ensures "object" in action
  {
    var actions := FindObjectByType(data, "CreateAction").value;
    SearchActionsOnlyReturnsMembers(actions, ROOT_ID, "");
  }

  /** Whatever the search returns is one of the actions, with a readable
      object id. */
  lemma {:induction false} SearchActionsOnlyReturnsMembers(actions: seq<Node>, objectId: string, err: string)
    ensures var r := SearchActions(actions, objectId, err);
      r.Ok? && r.value.item.Some? ==>
        r.value.item.value in actions && ActionObjectId(r.value.item.value) == Ok(objectId)
  {
    if actions != [] && ActionObjectId(actions[0]).Ok? && ActionObjectId(actions[0]).value != objectId {
      SearchActionsOnlyReturnsMembers(actions[1..], objectId, err + Trace(ActionObjectId(actions[0]).value));
    }
  }

  /** No `./` node: the wrapper raises instead of reporting "No Root entry". */
  lemma MissingRootRaises(data: JValue)
    requires FindObjectById(data, JStr(ROOT_ID)) == Ok(None)
    ensures ContentOf(data) == Raised(AttributeError)
  {
  }

  /** The messages the software step can assign. */
  predicate IsSoftwareError(e: string)
  {
    e == "Error pasring SoftwareApplication" ||
    (|e| >= 31 && e[..31] == "Can't parse CreateAction item: ")
  }

  lemma SoftwareErrors(data: JValue)
    ensures SoftwareName(data).Ok? && SoftwareName(data).value.err.Some? ==>
      IsSoftwareError(SoftwareName(data).value.err.value)
  {
  }

  /** The only messages the wrapper can end with; "No Root entry",
      "Error parsing CreateAction" and "No Dataset entry" never appear. */
  lemma ErrorMessages(data: JValue)
    ensures ContentOf(data).Ok? ==>
      var e := ContentOf(data).value.err;
      e == "" || e == "No Data entry" || IsSoftwareError(e)
    ensures ContentOf(data).Ok? ==>
      var e := ContentOf(data).value.err;
      e != "No Root entry" && e != "Error parsing CreateAction" && e != "No Dataset entry"
  {
    if ContentOf(data).Ok? {
      var root := RootNode(data).value;
      var software := SoftwareName(data).value;
      var entry := ParseData(data, root).value;
      SoftwareErrors(data);
      assert entry.err == None || entry.err == Some("No Data entry");
      var e := ContentOf(data).value.err;
      assert e == LastError("", [software.err, entry.err]);
    }
  }

  /** A root without a usable `hasPart` link: whatever the software step
      did, the final error is "No Data entry" and every data field is None. */
  lemma NoDataEntryOverwrites(data: JValue, root: Node)
    requires RootNode(data) == Ok(root)
    requires LinkedId(Get(root, "hasPart")) == Ok(None)
    requires ContentOf(data).Ok?
    ensures ContentOf(data).value.err == "No Data entry"
    ensures var c := ContentOf(data).value;
      c.user == JNull && c.objType == JNull && c.value == JNull && c.objName == JNull
  {
  }

  /** A `hasPart` link whose data entry resolves makes the data step
      succeed without assigning an error. */
  lemma ParseDataLinked(data: JValue, root: Node, target: JValue, fields: DataFields)
    requires LinkedId(Get(root, "hasPart")) == Ok(Some(target))
    requires DataEntry(data, target) == Ok(fields)
    ensures ParseData(data, root) == Ok(Step(fields, None))
  {
  }

  /** A root with a `hasPart` link whose data entry resolves: the error is
      the one the software step left, or empty. */
  lemma DataEntryKeepsSoftwareError(data: JValue, root: Node, target: JValue, fields: DataFields)
    requires RootNode(data) == Ok(root)
    requires LinkedId(Get(root, "hasPart")) == Ok(Some(target))
    requires DataEntry(data, target) == Ok(fields)
    requires SoftwareName(data).Ok?
    ensures ContentOf(data).Ok?
    ensures var c := ContentOf(data).value;
      c.err == (if SoftwareName(data).value.err.Some? then SoftwareName(data).value.err.value else "") &&
      c.user == fields.user && c.objType == fields.objType && c.value == fields.value &&
      c.objName == fields.objName
  {
    assert ParseData(data, root) == Ok(Step(fields, None));
    ContentOfSteps(data, root, SoftwareName(data).value, Step(fields, None));
  }

  /** The data fields come from the `hasPart` target, and `user` from the
      node behind that target's `creator` link. */
  lemma DataEntryFields(data: JValue, target: JValue, dataset: Node, creatorId: JValue, creator: Node)
    requires FindObjectById(data, target) == Ok(Some(dataset)) && dataset != map[]
    requires LinkedId(Get(dataset, "creator")) == Ok(Some(creatorId))
    requires FindObjectById(data, creatorId) == Ok(Some(creator)) && creator != map[]
    ensures DataEntry(data, target) == Ok(DataFields(
      Get(creator, "alternateName"), Get(dataset, "additionalType"),
      Get(dataset, "text"), Get(dataset, "name")))
  {
  }

  /** A dataset without a usable `creator` link gives user None. */
  lemma DataEntryWithoutCreator(data: JValue, target: JValue, dataset: Node)
    requires FindObjectById(data, target) == Ok(Some(dataset))
    requires LinkedId(Get(dataset, "creator")) == Ok(None)
    ensures DataEntry(data, target) ==
      Ok(DataFields(JNull, Get(dataset, "additionalType"), Get(dataset, "text"), Get(dataset, "name")))
  {
  }

  /** A `hasPart` target that is not in the graph raises AttributeError
      (the "No Data entry" branch is only for a missing link). */
  lemma DataEntryTargetMissing(data: JValue, target: JValue)
    requires FindObjectById(data, target) == Ok(None)
    ensures DataEntry(data, target) == Raised(AttributeError)
  {
  }
}
