/** The writer and the reader are the two halves of one exchange: the crate
    `save_to_json` writes is what the dropbox's `ContentWrapper` reads and
    `addEntryObj` validates. This module follows a crate graph through the
    reader, and shows the two user names for which the exchange breaks. */
module RoundTrip {

  import opened Json
  import opened Graph
  import opened Receiver
  import opened Ingest
  import opened Writer

  /** What the reader extracts from a crate that round-trips: no error, the
      writer's software name, the root's empty type and the permID, the
      user, and the data entity's type, text and name. */
  function Expected(username: string, permId: string, html: string): Content
  {
    Content("", JStr(SOFTWARE_NAME), JStr(""), JStr(permId), JStr(username),
            JStr("ENTRY"), JStr(html), JStr("OMERO data"))
  }

  /** A lookup reaches node `i` when the nodes before it have other ids. */
  lemma FindsNode(items: seq<JValue>, target: JValue, i: nat)
    requires i < |items| && forall k :: 0 <= k <= i ==> items[k].JObj?
    requires Get(items[i].fields, "@id") == target
    requires forall k :: 0 <= k < i ==> Get(items[k].fields, "@id") != target
    ensures ScanById(items, target) == Ok(Some(items[i].fields))
  {
    ScanByIdFindsFirst(items, target, i);
  }

  /** Ids made by prefixing "#" differ when the names differ. */
  lemma HashIdsDiffer(a: string, b: string)
    requires a != b
    ensures "#" + a != "#" + b
  {
    assert ("#" + a)[1..] == a && ("#" + b)[1..] == b;
  }

  /** A Person id starts with "#", unlike the ids of the descriptor and the
      root. */
  lemma PersonIdIsHashed(username: string)
    ensures "#" + username != "ro-crate-metadata.json" && "#" + username != ROOT_ID
  {
    assert ("#" + username)[0] == '#';
  }

  /** The ids of the six nodes of a crate graph, in order. */
  predicate HasCrateIds(items: seq<JValue>, username: string)
  {
    |items| == 6 && (forall k :: 0 <= k < 6 ==> items[k].JObj?) &&
    Get(items[0].fields, "@id") == JStr("ro-crate-metadata.json") &&
    Get(items[1].fields, "@id") == JStr(ROOT_REF) &&
    Get(items[2].fields, "@id") == JStr("#" + username) &&
    Get(items[3].fields, "@id") == JStr(SOFTWARE_ID) &&
    Get(items[4].fields, "@id") == JStr(SOFTWARE_ID) &&
    Get(items[5].fields, "@id") == JStr(DATA_ID)
  }

  lemma CrateGraphIds(items: seq<JValue>, username: string, permId: string, html: string)
    requires IsCrateGraph(items, username, permId, html)
    ensures HasCrateIds(items, username)
  {
  }

  /** The only CreateAction of a crate graph is its fifth node. */
  lemma OnlyOneAction(items: seq<JValue>, username: string, permId: string, html: string)
    requires IsCrateGraph(items, username, permId, html)
    ensures ScanByType(items, "CreateAction") == Ok([items[4].fields])
  {
    forall j | 0 <= j < 6 && j != 4
      ensures items[j].JObj? && !IsTypeMatch(items[j], "CreateAction")
    {
    }
    ScanByTypeSingle(items, "CreateAction", 4);
  }

  /** The graph the reader scans is the written node list. */
  lemma DocumentItems(items: seq<JValue>)
    ensures GraphItems(Document(items)) == Ok(items)
  {
  }

  /** The root lookup finds the second node. */
  lemma FindRoot(items: seq<JValue>, username: string)
    requires HasCrateIds(items, username)
    ensures FindObjectById(Document(items), JStr(ROOT_ID)) == Ok(Some(items[1].fields))
  {
    DocumentItems(items);
    FindsNode(items, JStr(ROOT_ID), 1);
  }

  /** The lookup of the Person's id finds the Person. */
  lemma FindPerson(items: seq<JValue>, username: string)
    requires HasCrateIds(items, username)
    ensures FindObjectById(Document(items), JStr("#" + username)) == Ok(Some(items[2].fields))
  {
    DocumentItems(items);
    forall k | 0 <= k < 2 ensures Get(items[k].fields, "@id") != JStr("#" + username) {
      PersonIdIsHashed(username);
    }
    FindsNode(items, JStr("#" + username), 2);
  }

  /** The lookup of "#OMERO" finds the SoftwareApplication, unless the user
      is "OMERO": then it finds the Person. */
  lemma FindSoftware(items: seq<JValue>, username: string)
    requires HasCrateIds(items, username)
    ensures FindObjectById(Document(items), JStr(SOFTWARE_ID)) ==
      Ok(Some(if username == "OMERO" then items[2].fields else items[3].fields))
  {
    DocumentItems(items);
    if username == "OMERO" {
      FindsNode(items, JStr(SOFTWARE_ID), 2);
    } else {
      forall k | 0 <= k < 3 ensures Get(items[k].fields, "@id") != JStr(SOFTWARE_ID) {
        if k == 2 {
          HashIdsDiffer(username, "OMERO");
        }
      }
      FindsNode(items, JStr(SOFTWARE_ID), 3);
    }
  }

  /** The lookup of the data entity's id finds it, unless the user name is
      OMERO_URI: then it finds the Person. */
  lemma FindEntity(items: seq<JValue>, username: string)
    requires HasCrateIds(items, username)
    ensures FindObjectById(Document(items), JStr(DATA_ID)) ==
      Ok(Some(if username == OMERO_URI then items[2].fields else items[5].fields))
  {
    DocumentItems(items);
    if username == OMERO_URI {
      FindsNode(items, JStr(DATA_ID), 2);
    } else {
      forall k | 0 <= k < 5 ensures Get(items[k].fields, "@id") != JStr(DATA_ID) {
        if k == 2 {
          HashIdsDiffer(username, OMERO_URI);
        }
      }
      FindsNode(items, JStr(DATA_ID), 5);
    }
  }

  /** The action search of the reader finds the CreateAction at once. */
  lemma ActionFound(items: seq<JValue>, username: string, permId: string, html: string)
    requires IsCrateGraph(items, username, permId, html)
    ensures CreateActionSearch(Document(items), ROOT_ID) ==
      Ok(ActionSearch(Some(items[4].fields), Trace(ROOT_ID) + "-- found"))
  {
    OnlyOneAction(items, username, permId, html);
    DocumentItems(items);
    SingleActionFound(items[4].fields);
  }

  /** An action acting on the root is found when it is the only one. */
  lemma SingleActionFound(action: Node)
    requires IsAction(action)
    ensures SearchActions([action], ROOT_ID, "") == Ok(ActionSearch(Some(action), Trace(ROOT_ID) + "-- found"))
  {
    assert ActionObjectId(action) == Ok(ROOT_ID) by {
      assert LinkedId(Get(action, "object")) == Ok(Some(JStr(ROOT_REF)));
    }
    assert [action][0] == action;
    assert "" + Trace(ROOT_ID) == Trace(ROOT_ID);
  }

  /** The reader resolves the action's instrument to the SoftwareApplication
      and reads its name. */
  lemma SoftwareReadBack(items: seq<JValue>, username: string, permId: string, html: string)
    requires IsCrateGraph(items, username, permId, html)
    requires username != "OMERO"
    ensures SoftwareName(Document(items)) == Ok(Step(JStr(SOFTWARE_NAME), None))
  {
    var data := Document(items);
    ActionFound(items, username, permId, html);
    CrateGraphIds(items, username, permId, html);
    FindSoftware(items, username);
    SoftwareNameFound(data, items[4].fields, Trace(ROOT_ID) + "-- found", JStr(SOFTWARE_ID), items[3].fields);
  }

  /** The reader follows `hasPart` to the data entity and its `creator` to
      the Person. */
  lemma DataReadBack(items: seq<JValue>, username: string, permId: string, html: string)
    requires IsCrateGraph(items, username, permId, html)
    requires username != OMERO_URI
    ensures ParseData(Document(items), items[1].fields) ==
      Ok(Step(DataFields(JStr(username), JStr("ENTRY"), JStr(html), JStr("OMERO data")), None))
  {
    EntryReadBack(items, username, permId, html);
    assert LinkedId(Get(items[1].fields, "hasPart")) == Ok(Some(JStr(DATA_ID)));
    ParseDataLinked(Document(items), items[1].fields, JStr(DATA_ID),
      DataFields(JStr(username), JStr("ENTRY"), JStr(html), JStr("OMERO data")));
  }

  /** The data entity's lookup and its creator's give the entity's fields
      and the Person's user name. */
  lemma EntryReadBack(items: seq<JValue>, username: string, permId: string, html: string)
    requires IsCrateGraph(items, username, permId, html)
    requires username != OMERO_URI
    ensures DataEntry(Document(items), JStr(DATA_ID)) ==
      Ok(DataFields(JStr(username), JStr("ENTRY"), JStr(html), JStr("OMERO data")))
  {
    CrateGraphIds(items, username, permId, html);
    FindEntity(items, username);
    FindPerson(items, username);
    DataEntryFields(Document(items), JStr(DATA_ID), items[5].fields, JStr("#" + username), items[2].fields);
  }

  /** A crate graph whose user name collides with no other node id reads
      back as exactly what the writer put in, with no error. */
  lemma GraphReadsBack(items: seq<JValue>, username: string, permId: string, html: string)
    requires IsCrateGraph(items, username, permId, html)
    requires username != "OMERO" && username != OMERO_URI
    ensures ContentOf(Document(items)) == Ok(Expected(username, permId, html))
  {
    RootReadBack(items, username, permId, html);
    SoftwareReadBack(items, username, permId, html);
    DataReadBack(items, username, permId, html);
    ExpectedContent(Document(items), items[1].fields, username, permId, html);
  }

  /** The three steps of the reader, each as the writer meant it, make up
      the expected record. */
  lemma ExpectedContent(data: JValue, root: Node, username: string, permId: string, html: string)
    requires RootNode(data) == Ok(root)
    requires Get(root, "additionalType") == JStr("") && Get(root, "identifier") == JStr(permId)
    requires SoftwareName(data) == Ok(Step(JStr(SOFTWARE_NAME), None))
    requires ParseData(data, root) ==
      Ok(Step(DataFields(JStr(username), JStr("ENTRY"), JStr(html), JStr("OMERO data")), None))
    ensures ContentOf(data) == Ok(Expected(username, permId, html))
  {
    ContentOfSteps(data, root, Step(JStr(SOFTWARE_NAME), None),
      Step(DataFields(JStr(username), JStr("ENTRY"), JStr(html), JStr("OMERO data")), None));
  }

  /** The reader's root is the second node. */
  lemma RootReadBack(items: seq<JValue>, username: string, permId: string, html: string)
    requires IsCrateGraph(items, username, permId, html)
    ensures RootNode(Document(items)) == Ok(items[1].fields)
  {
    CrateGraphIds(items, username, permId, html);
    FindRoot(items, username);
  }

  /** Round trip: what `save_to_json` writes for a user name other than
      "OMERO" and OMERO_URI, `ContentWrapper` reads back as the permID, the
      user, the HTML table, the software name and the fixed type and name,
      with no error. */
  lemma CrateReadsBack(username: string, fullName: string, permId: string, html: string, t: Timestamps)
    requires username != "" && username != "OMERO" && username != OMERO_URI
    ensures Crate(username, fullName, permId, html, t).Some?
    ensures ContentOf(Crate(username, fullName, permId, html, t).value) == Ok(Expected(username, permId, html))
  {
    var c := Crate(username, fullName, permId, html, t).value;
    CrateLayout(username, fullName, permId, html, t);
    var items := c.fields["@graph"].items;
    assert c == Document(items);
    GraphReadsBack(items, username, permId, html);
  }

  /** ... and `addEntryObj` accepts it, with the written permID and user,
      exactly when the permID is not empty. */
  lemma CrateIsAccepted(username: string, fullName: string, permId: string, html: string, t: Timestamps)
    requires username != "" && username != "OMERO" && username != OMERO_URI
    ensures var c := ContentOf(Crate(username, fullName, permId, html, t).value);
      c.Ok? && AddEntryChecks(c.value) ==
        if permId == "" then Ok(Rejected("ERROR parsing permID")) else Ok(Accepted(permId, username))
  {
    CrateReadsBack(username, fullName, permId, html, t);
    ExpectedIsAccepted(username, permId, html);
  }

  /** The checks of `addEntryObj` on what a round trip reads back. */
  lemma ExpectedIsAccepted(username: string, permId: string, html: string)
    requires username != ""
    ensures AddEntryChecks(Expected(username, permId, html)) ==
      if permId == "" then Ok(Rejected("ERROR parsing permID")) else Ok(Accepted(permId, username))
  {
    assert Expected(username, permId, html).softwareName == JStr(OMERO_AUTHOR);
  }

  /** With the user name "OMERO" the software lookup stops at the Person,
      which has no `name`. */
  lemma GraphOfUserOmero(items: seq<JValue>, permId: string, html: string)
    requires IsCrateGraph(items, "OMERO", permId, html)
    ensures var c := ContentOf(Document(items));
      c.Ok? && c.value.softwareName == JNull && c.value.user == JStr("OMERO") &&
      c.value.rootId == JStr(permId)
  {
    var data := Document(items);
    ActionFound(items, "OMERO", permId, html);
    CrateGraphIds(items, "OMERO", permId, html);
    FindSoftware(items, "OMERO");
    SoftwareNameFound(data, items[4].fields, Trace(ROOT_ID) + "-- found", JStr(SOFTWARE_ID), items[2].fields);
    FindRoot(items, "OMERO");
    assert RootNode(data) == Ok(items[1].fields);
    DataReadBack(items, "OMERO", permId, html);
    ContentOfSteps(data, items[1].fields, Step(JNull, None),
      Step(DataFields(JStr("OMERO"), JStr("ENTRY"), JStr(html), JStr("OMERO data")), None));
  }

  /** A record with a user and a permID but no software name makes the log
      line of `addEntryObj` raise. */
  lemma NoPublisherRaises(c: Content)
    requires c.user.JStr? && c.user.s != "" && c.rootId.JStr? && c.rootId.s != ""
    requires c.softwareName == JNull
    ensures AddEntryChecks(c) == Raised(TypeError)
  {
  }

  /** The user name "OMERO" gives the Person the id "#OMERO", which the
      software lookup finds before the SoftwareApplication: the publisher is
      None and `addEntryObj` raises on its log line. */
  lemma UserOmeroLosesSoftware(username: string, fullName: string, permId: string, html: string, t: Timestamps)
    requires username == "OMERO" && permId != ""
    ensures var c := ContentOf(Crate(username, fullName, permId, html, t).value);
      c.Ok? && c.value.softwareName == JNull && AddEntryChecks(c.value) == Raised(TypeError)
  {
    var c := Crate(username, fullName, permId, html, t).value;
    CrateLayout(username, fullName, permId, html, t);
    var items := c.fields["@graph"].items;
    assert c == Document(items);
    GraphOfUserOmero(items, permId, html);
    NoPublisherRaises(ContentOf(c).value);
  }

  /** With the user name OMERO_URI the `hasPart` lookup stops at the Person,
      which has no `creator`, `text` or `name`. */
  lemma GraphOfUserOmeroUri(items: seq<JValue>, permId: string, html: string)
    requires IsCrateGraph(items, OMERO_URI, permId, html)
    ensures var c := ContentOf(Document(items));
      c.Ok? && c.value.user == JNull && c.value.value == JNull
  {
    var data := Document(items);
    RootReadBack(items, OMERO_URI, permId, html);
    SoftwareReadBack(items, OMERO_URI, permId, html);
    DataOfUserOmeroUri(items, permId, html);
    ContentOfSteps(data, items[1].fields, Step(JStr(SOFTWARE_NAME), None), Step(NO_DATA, None));
  }

  /** With the user name OMERO_URI the data step reads the Person, which
      has no `creator`: every data field is None and no error is set. */
  lemma DataOfUserOmeroUri(items: seq<JValue>, permId: string, html: string)
    requires IsCrateGraph(items, OMERO_URI, permId, html)
    ensures ParseData(Document(items), items[1].fields) == Ok(Step(NO_DATA, None))
  {
    var person := items[2].fields;
    CrateGraphIds(items, OMERO_URI, permId, html);
    FindEntity(items, OMERO_URI);
    assert LinkedId(Get(person, "creator")) == Ok(None);
    DataEntryWithoutCreator(Document(items), JStr(DATA_ID), person);
    assert DataFields(JNull, Get(person, "additionalType"), Get(person, "text"), Get(person, "name")) == NO_DATA;
    assert LinkedId(Get(items[1].fields, "hasPart")) == Ok(Some(JStr(DATA_ID)));
  }

  /** The user name OMERO_URI gives the Person the id of the data entity,
      so `hasPart` leads to the Person: no user and no text is read, and
      `addEntryObj` rejects the user name. */
  lemma UserOmeroUriLosesData(username: string, fullName: string, permId: string, html: string, t: Timestamps)
    requires username == OMERO_URI
    ensures var c := ContentOf(Crate(username, fullName, permId, html, t).value);
      c.Ok? && c.value.user == JNull && c.value.value == JNull &&
      AddEntryChecks(c.value) == Ok(Rejected("ERROR parsing userName"))
  {
    var c := Crate(username, fullName, permId, html, t).value;
    CrateLayout(username, fullName, permId, html, t);
    var items := c.fields["@graph"].items;
    assert c == Document(items);
    GraphOfUserOmeroUri(items, permId, html);
  }
}
