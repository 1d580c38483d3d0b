/** The RO-Crate side of `ELN_writer.py`: the node builders (`root_dict`,
    `creativework_dict`, `person_dict`, `softwareappl_dict`,
    `createact_dict`, `metadata_dict`) and the graph `save_to_json` assembles
    from them. The graph is modelled as the JSON value `json.dumps` would
    serialise; every `datetime.now()` is a separate timestamp parameter. */
module Writer {

  import opened Strings
  import opened Json

  /** The configured URLs of the OMERO and ELN instances. */
  const OMERO_URI := "https://my.omero.de"
  const ELN_URI := "https://my.eln.de"

  const CONTEXT := "https://w3id.org/ro/crate/1.1/context"
  const ROOT_REF := "./"
  const SOFTWARE_ID := "#OMERO"
  const SOFTWARE_NAME := "OMERO Web Server OS"
  /** The `@id` of the data entity, which the root's `hasPart` refers to. */
  const DATA_ID := "#" + OMERO_URI

  /** The six `datetime.now()` readings of one `save_to_json` call, already
      in their serialised (ISO 8601) form. */
  datatype Timestamps = Timestamps(
    rootCreated: string, rootModified: string, rootPublished: string,
    actionEnd: string, dataCreated: string, dataModified: string)

  /** A reference to another node: `{"@id": id}`. */
  function Ref(id: string): JValue
  {
    JObj(map["@id" := JStr(id)])
  }

  /** `root_dict(conn, permID)`: the root data entity `./`, created and
      authored by the user's Person node, with the data entity as its part.
      An empty user name raises ValueError. */
  function RootDict(username: string, permId: string, t: Timestamps): (r: Outcome<Node>)
    ensures r.Raised? <==> username == ""
    ensures r.Raised? ==> r.error == ValueError
  {
    if username == "" then Raised(ValueError)
    else Ok(map[
      "@id" := JStr("./"),
      "@type" := JStr("Dataset"),
      "name" := JStr("parent dataset"),
      "identifier" := JStr(permId),
      "additionalType" := JStr(""),
      "creator" := Ref("#" + username),
      "author" := Ref("#" + username),
      "dateCreated" := JStr(t.rootCreated),
      "dateModified" := JStr(t.rootModified),
      "datePublished" := JStr(t.rootPublished),
      "hasPart" := Ref(DATA_ID)])
  }

  /** `creativework_dict()`: the metadata descriptor, about the root. */
  function CreativeWorkDict(): (r: Node)
    ensures LinkedId(Get(r, "about")) == Ok(Some(JStr("./")))
  {
    map[
      "@id" := JStr("ro-crate-metadata.json"),
      "@type" := JStr("CreativeWork"),
      "about" := Ref("./"),
      "conformsTo" := Ref("https://w3id.org/ro/crate/1.1")]
  }

  // ---------------------------------------------------------------------
  // person_dict and its whitespace split
  // ---------------------------------------------------------------------

  /** The characters `\s` matches below U+0080. */
  predicate IsSpace(c: char)
  {
    c in " \t\n\r\U{B}\U{C}\U{1C}\U{1D}\U{1E}\U{1F}"
  }

  predicate NoSpace(s: string)
  {
    forall i :: 0 <= i < |s| ==> !IsSpace(s[i])
  }

  /** Index of the first whitespace character of `s`, or `|s|`. */
  function SpaceIndex(s: string): (i: nat)
    ensures i <= |s|
    ensures i < |s| ==> IsSpace(s[i])
    ensures NoSpace(s[..i])
  {
    if s == [] then 0
    else if IsSpace(s[0]) then 0
    else
      var i := 1 + SpaceIndex(s[1..]);
      assert forall k :: 1 <= k < i ==> s[..i][k] == s[1..][..i - 1][k - 1];
      i
  }

  /** A whitespace character with none before it is the first one. */
  lemma {:induction false} SpaceIndexAt(s: string, i: nat)
    requires i < |s| && IsSpace(s[i])
    requires forall k :: 0 <= k < i ==> !IsSpace(s[k])
    ensures SpaceIndex(s) == i
  {
    if i > 0 {
      forall k | 0 <= k < i - 1 ensures !IsSpace(s[1..][k]) {
        assert s[1..][k] == s[k + 1];
      }
      SpaceIndexAt(s[1..], i - 1);
    }
  }

  /** The end of the whitespace run that starts at `i`. */
  function RunEnd(s: string, i: nat): (j: nat)
    requires i <= |s|
    ensures i <= j <= |s|
    ensures forall k :: i <= k < j ==> IsSpace(s[k])
    ensures j < |s| ==> !IsSpace(s[j])
    decreases |s| - i
  {
    if i < |s| && IsSpace(s[i]) then RunEnd(s, i + 1) else i
  }

  /** `re.split(r"\s+", s)`: the text between maximal whitespace runs. A
      leading or trailing run gives an empty first or last field, and the
      empty string gives `[""]`. */
  function SplitWs(s: string): (parts: seq<string>)
    ensures |parts| >= 1
    ensures forall k :: 0 <= k < |parts| ==> NoSpace(parts[k])
    decreases |s|
  {
    var i := SpaceIndex(s);
    if i == |s| then
      assert s[..i] == s;
      [s]
    else [s[..i]] + SplitWs(s[RunEnd(s, i)..])
  }

  /** Joining words by single blanks and splitting again gives the words
      back, provided no word holds whitespace and only the first and the
      last may be empty. */
  lemma {:induction false} SplitWsJoin(parts: seq<string>)
    requires |parts| >= 1
    requires forall k :: 0 <= k < |parts| ==> NoSpace(parts[k])
    requires forall k :: 0 < k < |parts| - 1 ==> parts[k] != ""
    ensures SplitWs(Join(parts, " ")) == parts
  {
    if |parts| > 1 {
      var rest := Join(parts[1..], " ");
      assert SplitWs(rest) == parts[1..] by {
        forall k | 0 <= k < |parts| - 1
          ensures NoSpace(parts[1..][k]) && (0 < k < |parts| - 2 ==> parts[1..][k] != "")
        {
          assert parts[1..][k] == parts[k + 1];
        }
        SplitWsJoin(parts[1..]);
      }
      assert SplitWs(Join(parts, " ")) == [parts[0]] + SplitWs(rest) by {
        assert Join(parts, " ") == parts[0] + " " + rest;
        assert rest == "" || !IsSpace(rest[0]) by {
          if |parts| > 2 {
            assert rest == parts[1] + " " + Join(parts[2..], " ");
            assert rest[0] == parts[1][0];
          } else {
            assert rest == parts[1];
          }
        }
        SplitWsStep(parts[0], rest);
      }
      assert parts == [parts[0]] + parts[1..];
    }
  }

  /** A word, one blank and text that does not start with whitespace split
      into the word and the fields of that text. */
  lemma SplitWsStep(w: string, rest: string)
    requires NoSpace(w)
    requires rest == "" || !IsSpace(rest[0])
    ensures SplitWs(w + " " + rest) == [w] + SplitWs(rest)
  {
    var s := w + " " + rest;
    assert s[..|w|] == w;
    assert SpaceIndex(s) == |w| by {
      forall k | 0 <= k < |w| ensures !IsSpace(s[k]) {
        assert s[k] == w[k];
      }
      SpaceIndexAt(s, |w|);
    }
    assert RunEnd(s, |w|) == |w| + 1 by {
      assert RunEnd(s, |w| + 1) == |w| + 1 by {
        if rest != "" {
          assert s[|w| + 1] == rest[0];
        }
      }
    }
    assert s[|w| + 1..] == rest;
  }

  /** `person_dict(conn)`: the Person node `#<username>` and its id. The
      given name is the first field of the full name split at whitespace,
      the family name the second field or ''. The split always yields a
      field, so the ParseError branch cannot be taken; an empty user name
      raises ValueError. */
  function PersonDict(username: string, fullName: string): (r: Outcome<(string, Node)>)
    ensures r.Raised? <==> username == ""
    ensures r.Raised? ==> r.error == ValueError
    ensures r.Ok? ==> r.value.0 == "#" + username
  {
    if username == "" then Raised(ValueError)
    else
      var parts := SplitWs(fullName);
      var node := map[
        "@id" := JStr("#" + username),
        "@type" := JStr("Person"),
        "alternateName" := JStr(username),
        "familyName" := JStr(if |parts| > 1 then parts[1] else ""),
        "givenName" := JStr(parts[0])];
      Ok((node["@id"].s, node))
  }

  /** The given name is the first whitespace-separated field of the full
      name, the family name the second field or ''. */
  lemma PersonNameFields(username: string, fullName: string)
    requires username != ""
    ensures var parts := SplitWs(fullName);
      var n := PersonDict(username, fullName).value.1;
      Get(n, "givenName") == JStr(parts[0]) &&
      Get(n, "familyName") == JStr(if |parts| > 1 then parts[1] else "")
  {
  }

  /** A full name "Given Family" gives exactly those two names. */
  lemma PersonNames(username: string, given: string, family: string)
    requires username != ""
    requires NoSpace(given) && NoSpace(family)
    ensures var (_, node) := PersonDict(username, given + " " + family).value;
      Get(node, "givenName") == JStr(given) && Get(node, "familyName") == JStr(family)
  {
    SplitWsJoin([given, family]);
    assert Join([given, family], " ") == given + " " + family;
    PersonNameFields(username, given + " " + family);
  }

  /** A single-word full name gives that word and an empty family name. */
  lemma PersonSingleName(username: string, given: string)
    requires username != ""
    requires NoSpace(given)
    ensures var (_, node) := PersonDict(username, given).value;
      Get(node, "givenName") == JStr(given) && Get(node, "familyName") == JStr("")
  {
    SplitWsJoin([given]);
    PersonNameFields(username, given);
  }

  /** A full name that starts with whitespace has an empty given name and
      its first word as the family name. */
  lemma PersonLeadingBlank(username: string, blank: string, word: string)
    requires username != "" && |blank| > 0 && !NoSpace(blank) && forall i :: 0 <= i < |blank| ==> IsSpace(blank[i])
    requires word != "" && NoSpace(word)
    ensures var (_, node) := PersonDict(username, blank + word).value;
      Get(node, "givenName") == JStr("") && Get(node, "familyName") == JStr(word)
  {
    var s := blank + word;
    assert SpaceIndex(s) == 0;
    assert RunEnd(s, 0) == |blank| by {
      RunEndSkips(s, 0, |blank|);
    }
    assert s[|blank|..] == word;
    SplitWsJoin([word]);
    PersonNameFields(username, s);
  }

  /** A run of whitespace from `i` up to a non-space at `j` ends at `j`. */
  lemma {:induction false} RunEndSkips(s: string, i: nat, j: nat)
    requires i <= j < |s| && !IsSpace(s[j])
    requires forall k :: i <= k < j ==> IsSpace(s[k])
    ensures RunEnd(s, i) == j
    decreases j - i
  {
    if i < j {
      RunEndSkips(s, i + 1, j);
    }
  }

  // ---------------------------------------------------------------------
  // The software, the action and the data entity
  // ---------------------------------------------------------------------

  /** `softwareappl_dict()`: the SoftwareApplication `#OMERO` and its id. */
  function SoftwareApplDict(): (r: (string, Node))
    ensures Get(r.1, "@id") == JStr(r.0) && r.0 == SOFTWARE_ID
    ensures Get(r.1, "name") == JStr(SOFTWARE_NAME)
  {
    (SOFTWARE_ID, map[
      "@id" := JStr(SOFTWARE_ID),
      "@type" := JStr("SoftwareApplication"),
      "name" := JStr(SOFTWARE_NAME),
      "installUrl" := Ref(OMERO_URI),
      "softwareVersion" := JStr("0.1.0")])
  }

  /** `createact_dict()`: the CreateAction whose object is the root and whose
      instrument is the software. It carries the same `@id` as the
      SoftwareApplication. */
  function CreateActDict(t: Timestamps): (r: Node)
  {
    map[
      "@id" := JStr(SOFTWARE_ID),
      "@type" := JStr("CreateAction"),
      "name" := JStr("RO-Crate created"),
      "description" := JStr("provenance of entity"),
      "object" := Ref("./"),
      "instrument" := JObj(map[
        "@id" := JStr(SOFTWARE_ID),
        "description" := JStr("Software that was used to produce this file")]),
      "actionStatus" := Ref("http://schema.org/CompletedActionStatus"),
      "endtime" := JStr(t.actionEnd)]
  }

  /** `metadata_dict(permID, persondictid, htmltable)`: the data entity
      holding the HTML table unchanged as its text, created by the given
      person. */
  function MetadataDict(permId: string, personId: string, html: string, t: Timestamps): (r: Node)
  {
    map[
      "@id" := JStr(DATA_ID),
      "@type" := JStr("Dataset"),
      "additionalType" := JStr("ENTRY"),
      "name" := JStr("OMERO data"),
      "identifier" := JStr(permId),
      "text" := JStr(html),
      "creator" := Ref(personId),
      "dateCreated" := JStr(t.dataCreated),
      "dateModified" := JStr(t.dataModified)]
  }

  // ---------------------------------------------------------------------
  // save_to_json
  // ---------------------------------------------------------------------

  /** The document `save_to_json` writes around a list of nodes. */
  function Document(nodes: seq<JValue>): JValue
  {
    JObj(map["@context" := JStr(CONTEXT), "@graph" := JArr(nodes)])
  }

  /** The six nodes of the crate, in the order they are appended. */
  function CrateNodes(root: Node, personId: string, person: Node, permId: string, html: string, t: Timestamps): seq<JValue>
  {
    [JObj(CreativeWorkDict()), JObj(root), JObj(person), JObj(SoftwareApplDict().1),
     JObj(CreateActDict(t)), JObj(MetadataDict(permId, personId, html, t))]
  }

  /** The document `save_to_json` writes, or None when a builder raised and
      nothing is written. */
  function Crate(username: string, fullName: string, permId: string, html: string, t: Timestamps): (r: Option<JValue>)
    ensures r.None? <==> username == ""
  {
    var root := RootDict(username, permId, t);
    var person := PersonDict(username, fullName);
    if root.Raised? || person.Raised? then None
    else Some(Document(CrateNodes(root.value, person.value.0, person.value.1, permId, html, t)))
  }

  /** `save_to_json`: the node list grows one builder at a time; a builder
      that raises ends the call with nothing written. */
  method SaveToJson(username: string, fullName: string, permId: string, html: string, t: Timestamps)
    returns (written: Option<JValue>)
    ensures written == Crate(username, fullName, permId, html, t)
  {
    var descriptor := JObj(CreativeWorkDict());
    var nodes: seq<JValue> := [descriptor];
    var root := RootDict(username, permId, t);
    if root.Raised? {
      return None;
    }
    nodes := nodes + [JObj(root.value)];
    var person := PersonDict(username, fullName);
    if person.Raised? {
      return None;
    }
    var (personId, personNode) := person.value;
    var software, action := JObj(SoftwareApplDict().1), JObj(CreateActDict(t));
    var entity := JObj(MetadataDict(permId, personId, html, t));
    nodes := nodes + [JObj(personNode)];
    nodes := nodes + [software];
    nodes := nodes + [action];
    nodes := nodes + [entity];
    AppendedSix(descriptor, JObj(root.value), JObj(personNode), software, action, entity);
    written := Some(Document(nodes));
  }

  /** Six one-element appends make the six-element list. */
  lemma AppendedSix<T>(a: T, b: T, c: T, d: T, e: T, f: T)
    ensures [a] + [b] + [c] + [d] + [e] + [f] == [a, b, c, d, e, f]
  {
  }

  // ---------------------------------------------------------------------
  // The fields of each node, as the reader's `.get` sees them
  // ---------------------------------------------------------------------

  /** `{"@id": id, ...}`: a link to the node `id`, as the reader's link
      test accepts it. */
  predicate IsLink(v: JValue, id: string)
  {
    v.JObj? && "@id" in v.fields && v.fields["@id"] == JStr(id)
  }

  /** The metadata descriptor, about the root. */
  predicate IsDescriptor(n: Node)
  {
    Get(n, "@id") == JStr("ro-crate-metadata.json") && Get(n, "@type") == JStr("CreativeWork") &&
    IsLink(Get(n, "about"), ROOT_REF)
  }

  /** The root `./`: a Dataset whose identifier is the permID, with an empty
      `additionalType`, created and authored by a link to the Person id, and
      with a link to the data entity id as its part. */
  predicate IsRoot(n: Node, username: string, permId: string)
  {
    Get(n, "@id") == JStr(ROOT_REF) && Get(n, "@type") == JStr("Dataset") &&
    Get(n, "identifier") == JStr(permId) && Get(n, "additionalType") == JStr("") &&
    Get(n, "creator") == Get(n, "author") &&
    IsLink(Get(n, "creator"), "#" + username) &&
    IsLink(Get(n, "hasPart"), DATA_ID)
  }

  /** The Person `#<username>`, with the user name as `alternateName` and
      without `name`, `creator`, `additionalType` or `text`. */
  predicate IsPerson(n: Node, username: string)
  {
    Get(n, "@id") == JStr("#" + username) && Get(n, "@type") == JStr("Person") &&
    Get(n, "alternateName") == JStr(username) &&
    Get(n, "name") == JNull && Get(n, "creator") == JNull &&
    Get(n, "additionalType") == JNull && Get(n, "text") == JNull
  }

  /** The SoftwareApplication `#OMERO` named "OMERO Web Server OS". */
  predicate IsSoftware(n: Node)
  {
    Get(n, "@id") == JStr(SOFTWARE_ID) && Get(n, "@type") == JStr("SoftwareApplication") &&
    Get(n, "name") == JStr(SOFTWARE_NAME)
  }

  /** The CreateAction, under the software's id `#OMERO`, acting on the root
      with the software as its instrument. */
  predicate IsAction(n: Node)
  {
    Get(n, "@id") == JStr(SOFTWARE_ID) && Get(n, "@type") == JStr("CreateAction") &&
    IsLink(Get(n, "object"), ROOT_REF) &&
    IsLink(Get(n, "instrument"), SOFTWARE_ID)
  }

  /** The data entity: the HTML table unchanged as `text`, the permID as
      `identifier`, type "ENTRY", name "OMERO data", and a link to the
      person id as `creator`. */
  predicate IsEntity(n: Node, personId: string, permId: string, html: string)
  {
    Get(n, "@id") == JStr(DATA_ID) && Get(n, "@type") == JStr("Dataset") &&
    Get(n, "text") == JStr(html) && Get(n, "identifier") == JStr(permId) &&
    Get(n, "additionalType") == JStr("ENTRY") && Get(n, "name") == JStr("OMERO data") &&
    IsLink(Get(n, "creator"), personId)
  }

  lemma CreativeWorkFields()
    ensures IsDescriptor(CreativeWorkDict())
  {
  }

  lemma RootFields(username: string, permId: string, t: Timestamps)
    requires username != ""
    ensures IsRoot(RootDict(username, permId, t).value, username, permId)
  {
  }

  lemma PersonFields(username: string, fullName: string)
    requires username != ""
    ensures IsPerson(PersonDict(username, fullName).value.1, username)
  {
    PersonNamedFields(username, fullName);
    PersonMissingFields(username, fullName);
  }

  lemma PersonNamedFields(username: string, fullName: string)
    requires username != ""
    ensures var n := PersonDict(username, fullName).value.1;
      Get(n, "@id") == JStr("#" + username) && Get(n, "@type") == JStr("Person") &&
      Get(n, "alternateName") == JStr(username)
  {
  }

  /** The Person has no `name`, `creator`, `additionalType` or `text`. */
  lemma PersonMissingFields(username: string, fullName: string)
    requires username != ""
    ensures var n := PersonDict(username, fullName).value.1;
      Get(n, "name") == JNull && Get(n, "creator") == JNull &&
      Get(n, "additionalType") == JNull && Get(n, "text") == JNull
  {
  }

  lemma SoftwareFields()
    ensures IsSoftware(SoftwareApplDict().1)
  {
  }

  lemma ActionFields(t: Timestamps)
    ensures IsAction(CreateActDict(t))
  {
  }

  lemma EntityFields(permId: string, personId: string, html: string, t: Timestamps)
    ensures IsEntity(MetadataDict(permId, personId, html, t), personId, permId, html)
  {
  }

  /** The six nodes of a written crate, each as its builder makes it. */
  predicate IsCrateGraph(items: seq<JValue>, username: string, permId: string, html: string)
  {
    |items| == 6 && (forall k :: 0 <= k < 6 ==> items[k].JObj?) &&
    IsDescriptor(items[0].fields) && IsRoot(items[1].fields, username, permId) &&
    IsPerson(items[2].fields, username) && IsSoftware(items[3].fields) &&
    IsAction(items[4].fields) && IsEntity(items[5].fields, "#" + username, permId, html)
  }

  /** Six nodes of the right shapes, in the writer's order, form a crate graph. */
  lemma GraphShape(descriptor: Node, root: Node, person: Node, software: Node, action: Node, entity: Node,
                   username: string, permId: string, html: string)
    requires IsDescriptor(descriptor) && IsRoot(root, username, permId) && IsPerson(person, username)
    requires IsSoftware(software) && IsAction(action) && IsEntity(entity, "#" + username, permId, html)
    ensures IsCrateGraph([JObj(descriptor), JObj(root), JObj(person), JObj(software), JObj(action), JObj(entity)],
                         username, permId, html)
  {
    var items := [JObj(descriptor), JObj(root), JObj(person), JObj(software), JObj(action), JObj(entity)];
    assert items[0].fields == descriptor && items[1].fields == root && items[2].fields == person;
    assert items[3].fields == software && items[4].fields == action && items[5].fields == entity;
  }

  /** The node list `save_to_json` appends, given a root and a Person of
      the right shape, is a crate graph. */
  lemma CrateNodesShape(root: Node, username: string, person: Node, permId: string, html: string, t: Timestamps)
    requires IsRoot(root, username, permId) && IsPerson(person, username)
    ensures IsCrateGraph(CrateNodes(root, "#" + username, person, permId, html, t), username, permId, html)
  {
    CreativeWorkFields();
    SoftwareFields();
    ActionFields(t);
    EntityFields(permId, "#" + username, html, t);
    GraphShape(CreativeWorkDict(), root, person, SoftwareApplDict().1, CreateActDict(t),
               MetadataDict(permId, "#" + username, html, t), username, permId, html);
  }

  /** `save_to_json` writes `@context` and, under `@graph`, the descriptor,
      the root, the Person, the SoftwareApplication, the CreateAction and
      the data entity, in this order. */
  lemma CrateLayout(username: string, fullName: string, permId: string, html: string, t: Timestamps)
    requires username != ""
    ensures var c := Crate(username, fullName, permId, html, t).value;
      c.JObj? && Get(c.fields, "@context") == JStr(CONTEXT) && "@graph" in c.fields &&
      c.fields["@graph"].JArr? && IsCrateGraph(c.fields["@graph"].items, username, permId, html) &&
      c == Document(c.fields["@graph"].items)
  {
    var root := RootDict(username, permId, t).value;
    var person := PersonDict(username, fullName).value.1;
    var items := CrateNodes(root, "#" + username, person, permId, html, t);
    assert Crate(username, fullName, permId, html, t) == Some(Document(items));
    RootFields(username, permId, t);
    PersonFields(username, fullName);
    CrateNodesShape(root, username, person, permId, html, t);
    DocumentFields(items);
  }

  /** The written document holds the context and the node list. */
  lemma DocumentFields(items: seq<JValue>)
    ensures var d := Document(items).fields;
      Get(d, "@context") == JStr(CONTEXT) && "@graph" in d && d["@graph"] == JArr(items)
  {
  }
}
