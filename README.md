# RO-Crate exchange between OMERO and openBIS, modelled in Dafny

This project models the dependency-free core of the OMERO–ELN data bridge tools:

- **Writer.** The OMERO export script builds a six-node RO-Crate 1.1 `@graph`:
  - the metadata descriptor;
  - the root data entity `./`;
  - the user's Person;
  - the OMERO SoftwareApplication;
  - the CreateAction;
  - the data entity that holds the HTML table of image metadata.

  It also turns the exported CSV file into that HTML table, and it extracts the openBIS permID from an object link.
- **Reader.** The openBIS dropbox reads the crate back with `ContentWrapper`. It follows the `hasPart`, `creator` and `instrument` links from the root and flattens them into one record and one error string. `addEntryObj` then validates that record before any openBIS call, and `parseFile` only accepts `*.eln` files.
- **Grabber.** The metadata grabber collects the core metadata of OMERO images per ID into a nested dict, and renders that dict as a Markdown table.

## Modules and files

| File | Module | What it holds |
|---|---|---|
| `json.dfy` | `Json` | The parsed JSON value, Python's `dict.get`, truthiness, exceptions (`Outcome`), and the link test `if link and '@id' in link`. |
| `strings.dfy`, `dicts.dfy` | `Strings`, `Dicts` | Join/split, and insertion-ordered Python dicts. |
| `graph.dfy` | `Graph` | `find_object_by_id` and `find_object_by_type`. |
| `receiver.dfy` | `Receiver` | `ContentWrapper` with its nested `Root_data`, `DataEntry` and `CreateAction`. |
| `ingest.dfy` | `Ingest` | `ROCrateJSONReader.parse_profile`, the checks of `addEntryObj`, and the extension check of `parseFile`. |
| `writer.dfy` | `Writer` | The `*_dict` builders and `save_to_json`. |
| `csv_table.dfy` | `CsvTable` | `csvToHTMLTable`. |
| `parse_url.dfy` | `ParseUrl` | `parse_url`. |
| `round_trip.dfy` | `RoundTrip` | The crate `save_to_json` writes, followed through the reader and `addEntryObj`. |
| `core_metadata.dfy` | `CoreMetadata` | `get_headers`, `fill_dict`, `fill_dict_default` and `get_core_metadata`, on a `Metadata` class whose dict field the methods update in place. |
| `markdown.dfy` | `Markdown` | The rows of `markdown_table`. |

## Modelling choices

**Exceptions.** A Python call either returns a value or raises. This is modelled as `Outcome<T> = Ok(value) | Raised(error)`. Every crash path the code can reach is a `Raised` outcome, for example:
- `.get` on None;
- `None['@id']`;
- a string concatenation with None.

**Mutable state.** Where the source changes state step by step, the model is a method proved equal to a specification function:
- the `CreateAction.parse` loop;
- the `ContentWrapper` constructor;
- `parse_profile`;
- `save_to_json`;
- the loops of `csvToHTMLTable`;
- the `Metadata` methods.

Each such method is proved equal to a specification function, and the properties are lemmas about that function.

### Where the code differs from the documented behaviour

The model follows the code in each of these cases:
- **The last error wins.** Every failing step of `ContentWrapper` assigns `self.err` and overwrites the previous message. The record does not keep the first error.
- **No root raises instead of reporting.** A crate without a `./` node makes `Root_data` call `.get` on None, which raises AttributeError. A `Root_data` object is always truthy, so "No Root entry" is never assigned. The same holds for "Error parsing CreateAction" and "No Dataset entry".
- **A missing `hasPart` target raises.** A `hasPart` link whose target node is missing raises AttributeError in `DataEntry`. Only a missing link gives "No Data entry".
- **Trace text when no action is found.** A crate with no CreateAction at all still ends with the error "Can't parse CreateAction item: ". It is not empty.
- **The `fill_dict` handler never helps.** The handler repeats the assignment that failed, so a missing record raises KeyError from the handler.
- **Dataset counts.** A dataset listing with a negative `totalCount` contributes no IDs. Only the integer -2 is the "missing dataset" marker, so a text ID "-2" is looked up as an image.

## Model

Source paths:
- **receiver**: `src/omero_LinkageToolbox/omero-receiver.py`
- **writer**: `_downloads/efc33b4d6bc4bc00b31ac39535f231c6/ELN_writer.py`
- **grabber**: `src/omero_JSONQueryToolbox/omeroJSON_grabber.py`

| member | source | states |
|---|---|---|
| Json.LinkedId | src/omero_LinkageToolbox/omero-receiver.py:182-183 | The link test fails exactly for a falsy link, a dict without `@id`, or a string or list without "@id". The target is `link['@id']` exactly when the link is a dict with `@id`. Any other link raises. |
| Graph.GraphItems | src/omero_LinkageToolbox/omero-receiver.py:76 | A document without `@graph` scans as the empty list. A `@graph` list is scanned as is. A document that is not a dict raises AttributeError. |
| Graph.ScanById | src/omero_LinkageToolbox/omero-receiver.py:75-79 | Returns None exactly when every item is a dict with another `@id`. A found node is the first item carrying the target id. Any exception is an AttributeError at the first non-dict reached. |
| Graph.ScanByIdFindsFirst | src/omero_LinkageToolbox/omero-receiver.py:75-79 | When item `i` carries the id and every earlier item is a dict without it, the lookup returns item `i`. |
| Graph.AbsentGraphIsEmpty | src/omero_LinkageToolbox/omero-receiver.py:76 | A document without `@graph` finds no node for any id. |
| Graph.ScanByType | src/omero_LinkageToolbox/omero-receiver.py:82-87 | Succeeds exactly when every item is a dict. The result holds only nodes of the target type, forms a subsequence of `@graph` in document order, and has as many nodes as `@graph` has items of that type. |
| Graph.ScanByTypeSingle | src/omero_LinkageToolbox/omero-receiver.py:82-87 | When item `i` is the only node of the type, the filter returns just that node. |
| Receiver.SearchActionsFound | src/omero_LinkageToolbox/omero-receiver.py:247-254 | `parse` returns the FIRST action whose `object['@id']` is the one searched for. Its `err` is the trace of every action checked up to that one, followed by "-- found". |
| Receiver.SearchActionsMissed | src/omero_LinkageToolbox/omero-receiver.py:247-254 | When every action's object id is readable and different, `parse` returns None and the trace of every action. |
| Receiver.SearchActionsRaises | src/omero_LinkageToolbox/omero-receiver.py:250 | The first unreadable `object['@id']` reached before a match raises its exception. |
| Receiver.SearchActionsOnlyReturnsMembers | src/omero_LinkageToolbox/omero-receiver.py:247-254 | A returned action is one of the scanned actions, and its object id is the one searched for. |
| Receiver.CreateAction | src/omero_LinkageToolbox/omero-receiver.py:241-254 | The scan loop, appending to `err`, ends in the state the search function describes: found action, trace, or exception. |
| Receiver.RootNode | src/omero_LinkageToolbox/omero-receiver.py:211-219 | A document without a `./` node raises AttributeError. Otherwise the root is the node the lookup of `./` finds. |
| Receiver.LastError | src/omero_LinkageToolbox/omero-receiver.py:145-157 | The final error is the message of the last step that assigned one, and an earlier message survives any later step that assigns none. It is "" when no step did. |
| Receiver.ContentOfSteps | src/omero_LinkageToolbox/omero-receiver.py:141-168 | When root, software and data steps all return, the wrapper's attributes are: the root's `additionalType` and `identifier`, the software name, the four data fields, and the last error. |
| Receiver.NewContentWrapper | src/omero_LinkageToolbox/omero-receiver.py:141-168 | The constructor, setting attributes one after another and overwriting `err`, yields the record the step functions describe. |
| Receiver.ParseSoftwareName | src/omero_LinkageToolbox/omero-receiver.py:193-209 | The method computes the four-way outcome of `parse_SoftwareName`. |
| Receiver.ParseDataEntry | src/omero_LinkageToolbox/omero-receiver.py:179-185 | A missing link gives no data and "No Data entry". Otherwise the method returns the fields of the linked entry. |
| Receiver.SoftwareNameFound | src/omero_LinkageToolbox/omero-receiver.py:200-204 | An existing instrument target gives its `name`, and `err` is untouched. |
| Receiver.SoftwareNameTargetMissing | src/omero_LinkageToolbox/omero-receiver.py:205-206 | A missing instrument target gives None and "Error pasring SoftwareApplication". |
| Receiver.SoftwareNameNoAction | src/omero_LinkageToolbox/omero-receiver.py:196-199 | No matching action gives None and "Can't parse CreateAction item: " followed by the trace. |
| Receiver.SoftwareNameNoLink | src/omero_LinkageToolbox/omero-receiver.py:200-201 | An absent instrument link, or one without `@id`, gives None and leaves `err` untouched. |
| Receiver.ActionSearchFoundHasObject | src/omero_LinkageToolbox/omero-receiver.py:196-197 | A found action has an `object`, so it is truthy. |
| Receiver.MissingRootRaises | src/omero_LinkageToolbox/omero-receiver.py:213-214 | A crate without `./` raises AttributeError instead of reporting "No Root entry". |
| Receiver.SoftwareErrors | src/omero_LinkageToolbox/omero-receiver.py:193-209 | The software step only assigns "Error pasring SoftwareApplication" or a "Can't parse CreateAction item: " message. |
| Receiver.ErrorMessages | src/omero_LinkageToolbox/omero-receiver.py:170-209 | The final error is "", "No Data entry" or a software-step message. It is never "No Root entry", "Error parsing CreateAction" or "No Dataset entry". |
| Receiver.NoDataEntryOverwrites | src/omero_LinkageToolbox/omero-receiver.py:179-185 | Without a usable `hasPart` link, the final error is "No Data entry" whatever the software step set, and all four data fields are None. |
| Receiver.ParseDataLinked | src/omero_LinkageToolbox/omero-receiver.py:180-183 | A `hasPart` link whose entry resolves gives that entry's fields and no error. |
| Receiver.DataEntryKeepsSoftwareError | src/omero_LinkageToolbox/omero-receiver.py:157-163 | With a resolved data entry, the error is the software step's (or "") and the fields are the entry's. |
| Receiver.DataEntryFields | src/omero_LinkageToolbox/omero-receiver.py:221-239 | type, value and name are the target's `additionalType`, `text` and `name`. user is the `alternateName` of the node behind its `creator` link. |
| Receiver.DataEntryWithoutCreator | src/omero_LinkageToolbox/omero-receiver.py:232-239 | A dataset without a usable `creator` link has user None and its other fields as read. |
| Receiver.DataEntryTargetMissing | src/omero_LinkageToolbox/omero-receiver.py:223-225 | A `hasPart` target missing from the graph raises AttributeError. |
| Ingest.ROCrateJSONReader.Loaded | src/omero_LinkageToolbox/omero-receiver.py:101-104 | A new reader holds the loaded crate and an empty `err`. |
| Ingest.ROCrateJSONReader.ParseProfile | src/omero_LinkageToolbox/omero-receiver.py:121-138 | A null crate raises. The 'openbis' profile returns the wrapper and copies its `err`. Every other profile sets "Unknown profile" and returns None. |
| Ingest.OpenReader | src/omero_LinkageToolbox/omero-receiver.py:100-105 | The reader's `content` and `err` are the wrapper's record and error, or the wrapper's exception propagates. |
| Ingest.AddEntryChecks | src/omero_LinkageToolbox/omero-receiver.py:351-377 | Each way the checks can end, as an if-and-only-if on the record: "ERROR parsing userName" for a falsy user; "ERROR parsing permID" for a falsy permID; TypeError in the log lines for non-string values; "Incoming file is not a valid OMERO *.eln." for another publisher; acceptance with the permID and user name otherwise. |
| Ingest.Extension | src/omero_LinkageToolbox/omero-receiver.py:421 | `splitext`'s extension is "" or a suffix of the path starting with a dot. |
| Ingest.CheckExtensionSound | src/omero_LinkageToolbox/omero-receiver.py:421-425 | Every path `parseFile` lets through ends in ".eln" in any case, with a file name that has a non-dot character before it. |
| Ingest.CheckExtensionComplete | src/omero_LinkageToolbox/omero-receiver.py:421-425 | Every such path is let through. |
| Writer.RootDict | _downloads/efc33b4d6bc4bc00b31ac39535f231c6/ELN_writer.py:84-108 | Raises ValueError exactly when the user name is empty. |
| Writer.RootFields | _downloads/efc33b4d6bc4bc00b31ac39535f231c6/ELN_writer.py:94-106 | The root has `@id` "./" and `@type` "Dataset". Its `identifier` is the permID and its `additionalType` is "". `creator` equals `author`, a link to "#"+username. `hasPart` links to the data entity's id. |
| Writer.CreativeWorkDict | _downloads/efc33b4d6bc4bc00b31ac39535f231c6/ELN_writer.py:111-120 | The descriptor's `about` links to "./". |
| Writer.CreativeWorkFields | _downloads/efc33b4d6bc4bc00b31ac39535f231c6/ELN_writer.py:114-118 | The descriptor is `ro-crate-metadata.json`, a CreativeWork about the root. |
| Writer.SplitWs | _downloads/efc33b4d6bc4bc00b31ac39535f231c6/ELN_writer.py:133 | `re.split(r"\s+", …)` always yields at least one field, and no field holds whitespace. |
| Writer.SplitWsJoin | _downloads/efc33b4d6bc4bc00b31ac39535f231c6/ELN_writer.py:133 | Splitting words joined by single blanks gives the words back. |
| Writer.PersonDict | _downloads/efc33b4d6bc4bc00b31ac39535f231c6/ELN_writer.py:123-146 | Raises ValueError exactly for an empty user name. Otherwise the returned id is "#"+username. |
| Writer.PersonNameFields | _downloads/efc33b4d6bc4bc00b31ac39535f231c6/ELN_writer.py:143-144 | givenName is the first field of the split full name. familyName is the second field, or ''. |
| Writer.PersonNames | _downloads/efc33b4d6bc4bc00b31ac39535f231c6/ELN_writer.py:133-144 | "Given Family" gives exactly those two names. |
| Writer.PersonSingleName | _downloads/efc33b4d6bc4bc00b31ac39535f231c6/ELN_writer.py:143-144 | A one-word full name gives that word and an empty family name. |
| Writer.PersonLeadingBlank | _downloads/efc33b4d6bc4bc00b31ac39535f231c6/ELN_writer.py:133-144 | Leading whitespace gives an empty given name, and the first word becomes the family name. |
| Writer.PersonFields | _downloads/efc33b4d6bc4bc00b31ac39535f231c6/ELN_writer.py:139-146 | The Person is "#"+username, with the user name as `alternateName` and without `name`, `creator`, `additionalType` or `text`. |
| Writer.SoftwareApplDict | _downloads/efc33b4d6bc4bc00b31ac39535f231c6/ELN_writer.py:149-159 | The returned id is the node's `@id`, "#OMERO". Its name is "OMERO Web Server OS". |
| Writer.SoftwareFields | _downloads/efc33b4d6bc4bc00b31ac39535f231c6/ELN_writer.py:152-155 | The SoftwareApplication node has id, type and name as written. |
| Writer.ActionFields | _downloads/efc33b4d6bc4bc00b31ac39535f231c6/ELN_writer.py:165-171 | The CreateAction shares the `@id` "#OMERO". Its `object` links to "./" and its `instrument` to "#OMERO". |
| Writer.EntityFields | _downloads/efc33b4d6bc4bc00b31ac39535f231c6/ELN_writer.py:178-192 | The data entity holds the HTML table unchanged as `text` and the permID as `identifier`. Its type is "ENTRY", its name "OMERO data", and its `creator` links to the given person id. |
| Writer.Crate | _downloads/efc33b4d6bc4bc00b31ac39535f231c6/ELN_writer.py:212-217 | Nothing is written exactly when the user name is empty. |
| Writer.SaveToJson | _downloads/efc33b4d6bc4bc00b31ac39535f231c6/ELN_writer.py:202-224 | The appended node list and document equal the crate. |
| Writer.CrateNodesShape | _downloads/efc33b4d6bc4bc00b31ac39535f231c6/ELN_writer.py:208-222 | The appended list is the six nodes, each of its builder's shape, in order. |
| Writer.CrateLayout | _downloads/efc33b4d6bc4bc00b31ac39535f231c6/ELN_writer.py:205-224 | The document holds the fixed `@context` and a `@graph` of descriptor, root, Person, software, action and entity, in order. |
| ParseUrl.MatchAt | _downloads/efc33b4d6bc4bc00b31ac39535f231c6/ELN_writer.py:473 | A match is 17 digits, '-' and a greedy digit run. |
| ParseUrl.MatchesArePermIds | _downloads/efc33b4d6bc4bc00b31ac39535f231c6/ELN_writer.py:473 | `findall` reports permID-shaped, non-overlapping matches, left to right. |
| ParseUrl.FindAll | _downloads/efc33b4d6bc4bc00b31ac39535f231c6/ELN_writer.py:473-474 | Every reported match has the shape `\d{17}-\d+`. |
| ParseUrl.MatchesAreMatchAt | _downloads/efc33b4d6bc4bc00b31ac39535f231c6/ELN_writer.py:473 | Each reported span is the greedy match that starts where the span starts. |
| ParseUrl.MatchesComplete | _downloads/efc33b4d6bc4bc00b31ac39535f231c6/ELN_writer.py:473 | No match is dropped: every position where the pattern matches lies inside a reported span. |
| ParseUrl.FindAllGreedy | _downloads/efc33b4d6bc4bc00b31ac39535f231c6/ELN_writer.py:473-474 | Each string `findall` reports is the greedy match at its span's start. |
| ParseUrl.FindAllComplete | _downloads/efc33b4d6bc4bc00b31ac39535f231c6/ELN_writer.py:473-474 | A match starting anywhere in the URL overlaps a reported one, so the reported matches are the leftmost non-overlapping ones. |
| ParseUrl.SecondPermId | _downloads/efc33b4d6bc4bc00b31ac39535f231c6/ELN_writer.py:471-477 | Fewer than two matches raise IndexError. Otherwise the result is the second match. |
| ParseUrl.ParseUrlAsWritten | _downloads/efc33b4d6bc4bc00b31ac39535f231c6/ELN_writer.py:464-482 | Succeeds exactly when the ELN address, read as a pattern, matches the start of the URL and the URL holds two matches. The result is then the second match. Every failure is an IndexError. |
| ParseUrl.ParseUrl | _downloads/efc33b4d6bc4bc00b31ac39535f231c6/ELN_writer.py:464-482 | Succeeds exactly when the URL starts with the ELN address and holds two matches. The result is the second match, and IndexError is the only error. |
| ParseUrl.ParseUrlFindsSecond | _downloads/efc33b4d6bc4bc00b31ac39535f231c6/ELN_writer.py:472-474 | The result is a piece of the URL that follows another, earlier permID. |
| ParseUrl.FindsTwo | _downloads/efc33b4d6bc4bc00b31ac39535f231c6/ELN_writer.py:473-474 | Text whose digits are exactly two permIDs, separated by a non-digit, yields those two. |
| ParseUrl.ObjectLinkGivesItsPermId | _downloads/efc33b4d6bc4bc00b31ac39535f231c6/ELN_writer.py:464-482 | An object link on the ELN, holding the parent's permID and then the object's, gives the object's permID. |
| ParseUrl.LookalikeHostPasses | _downloads/efc33b4d6bc4bc00b31ac39535f231c6/ELN_writer.py:469 | A lookalike host passes the check as written but fails the literal check. |
| CsvTable.Position | _downloads/efc33b4d6bc4bc00b31ac39535f231c6/ELN_writer.py:329-331 | `list.index` gives the first position of a present header, and ValueError exactly when it is absent. |
| CsvTable.OptionalPosition | _downloads/efc33b4d6bc4bc00b31ac39535f231c6/ELN_writer.py:343-344 | The Tags and Key-Value columns are None exactly when absent, else their first position. |
| CsvTable.CleanRow | _downloads/efc33b4d6bc4bc00b31ac39535f231c6/ELN_writer.py:347-359 | A record is cleaned exactly when it reaches both optional columns, else IndexError. The cleaned record keeps its length. The key-value cell becomes `key:value;` runs, the tags cell `name,` runs, and every other cell is unchanged. |
| CsvTable.CleanRows | _downloads/efc33b4d6bc4bc00b31ac39535f231c6/ELN_writer.py:346-360 | The first loop succeeds exactly when every record cleans, and then yields each cleaned record in order. |
| CsvTable.RowHtml | _downloads/efc33b4d6bc4bc00b31ac39535f231c6/ELN_writer.py:365-370 | A row raises IndexError exactly when it lacks the Name or ID cell. |
| CsvTable.BodyRows | _downloads/efc33b4d6bc4bc00b31ac39535f231c6/ELN_writer.py:363-371 | The second loop succeeds exactly when every row does, and concatenates their `<tr>`s in order. |
| CsvTable.TagsCellSplits | _downloads/efc33b4d6bc4bc00b31ac39535f231c6/ELN_writer.py:349-353 | Splitting the tags cell at commas gives the tag names back, followed by "". |
| CsvTable.PairsCellSplits | _downloads/efc33b4d6bc4bc00b31ac39535f231c6/ELN_writer.py:356-359 | Splitting the key-value cell at ';' and then ':' gives every key and value back. |
| CsvTable.CleanRowComplete | _downloads/efc33b4d6bc4bc00b31ac39535f231c6/ELN_writer.py:346-359 | Cleaning succeeds exactly when the record reaches the Tags and Key-Value columns present in the header. |
| CsvTable.HtmlTableErrors | _downloads/efc33b4d6bc4bc00b31ac39535f231c6/ELN_writer.py:323-373 | Missing Name or ID gives ValueError. Otherwise a record too short for an indexed column gives IndexError. Otherwise the conversion succeeds. Each case is an if-and-only-if. |
| CsvTable.RowIsShown | _downloads/efc33b4d6bc4bc00b31ac39535f231c6/ELN_writer.py:364-370 | In a record's `<tr>`, the name is a link to `OMERO_URI/webclient/?show=image-<ID>`, the tags and pairs are flattened, and other cells are as read. |
| CsvTable.HtmlTableContent | _downloads/efc33b4d6bc4bc00b31ac39535f231c6/ELN_writer.py:323-373 | The output is "<h2>OMERO data</h2>", then the table with one `<th>` per header and one `<tr>` per record, in order. |
| CsvTable.WrapEach | _downloads/efc33b4d6bc4bc00b31ac39535f231c6/ELN_writer.py:337-338 | The header loop wraps every header in `<th>`, in order. |
| CsvTable.Flatten | _downloads/efc33b4d6bc4bc00b31ac39535f231c6/ELN_writer.py:351-352 | The tag loop appends every part followed by its terminator. |
| CsvTable.CleanRecord | _downloads/efc33b4d6bc4bc00b31ac39535f231c6/ELN_writer.py:347-359 | One pass of the first loop cleans the record as CleanRow says. |
| CsvTable.RecordHtml | _downloads/efc33b4d6bc4bc00b31ac39535f231c6/ELN_writer.py:365-370 | One pass of the second loop builds the row as RowHtml says. |
| CsvTable.CleanRecords | _downloads/efc33b4d6bc4bc00b31ac39535f231c6/ELN_writer.py:346-360 | The first loop builds `clean_data` as CleanRows says, stopping at the first IndexError. |
| CsvTable.RecordsHtml | _downloads/efc33b4d6bc4bc00b31ac39535f231c6/ELN_writer.py:363-370 | The second loop builds the body as BodyRows says. |
| CsvTable.CsvToHtmlTable | _downloads/efc33b4d6bc4bc00b31ac39535f231c6/ELN_writer.py:323-373 | The text the loops build, or the exception raised, equals the table specification. |
| RoundTrip.FindSoftware | _downloads/efc33b4d6bc4bc00b31ac39535f231c6/ELN_writer.py:153 | The lookup of "#OMERO" in a written graph finds the SoftwareApplication, or the Person when the user is "OMERO". |
| RoundTrip.FindEntity | _downloads/efc33b4d6bc4bc00b31ac39535f231c6/ELN_writer.py:182 | The lookup of the data entity's id finds it, or the Person when the user name is OMERO_URI. |
| RoundTrip.OnlyOneAction | _downloads/efc33b4d6bc4bc00b31ac39535f231c6/ELN_writer.py:167 | The fifth node is the only CreateAction of a written graph. |
| RoundTrip.ActionFound | src/omero_LinkageToolbox/omero-receiver.py:247-254 | The reader's action search finds the written CreateAction at once. |
| RoundTrip.RootReadBack | src/omero_LinkageToolbox/omero-receiver.py:211-216 | The reader's root is the written root. |
| RoundTrip.SoftwareReadBack | src/omero_LinkageToolbox/omero-receiver.py:193-204 | For a user other than "OMERO", the software name reads back as "OMERO Web Server OS" with no error. |
| RoundTrip.EntryReadBack | src/omero_LinkageToolbox/omero-receiver.py:221-239 | The data entry reads back as the user, "ENTRY", the HTML table and "OMERO data". |
| RoundTrip.DataReadBack | src/omero_LinkageToolbox/omero-receiver.py:179-183 | The data step returns those fields and no error. |
| RoundTrip.ExpectedContent | src/omero_LinkageToolbox/omero-receiver.py:141-168 | These steps make up the expected record. |
| RoundTrip.GraphReadsBack | src/omero_LinkageToolbox/omero-receiver.py:141-168 | A written graph reads back as exactly what was written, with err "". |
| RoundTrip.CrateReadsBack | _downloads/efc33b4d6bc4bc00b31ac39535f231c6/ELN_writer.py:202-224 | Round trip: for a non-empty user name other than "OMERO" and OMERO_URI, the reader gets back root_id = permID, root_type "", user, "ENTRY", the table, "OMERO data" and the software name, with no error. |
| RoundTrip.ExpectedIsAccepted | src/omero_LinkageToolbox/omero-receiver.py:358-377 | `addEntryObj` accepts that record exactly when the permID is not empty. |
| RoundTrip.CrateIsAccepted | src/omero_LinkageToolbox/omero-receiver.py:351-377 | What the writer writes passes `addEntryObj`'s checks, with the written permID and user. |
| RoundTrip.GraphOfUserOmero | _downloads/efc33b4d6bc4bc00b31ac39535f231c6/ELN_writer.py:140 | For user "OMERO", the software lookup reaches the Person, so the software name is None. |
| RoundTrip.NoPublisherRaises | src/omero_LinkageToolbox/omero-receiver.py:365-367 | A record with a user and permID but no publisher raises TypeError in the log lines. |
| RoundTrip.UserOmeroLosesSoftware | _downloads/efc33b4d6bc4bc00b31ac39535f231c6/ELN_writer.py:140 | A crate of user "OMERO" makes `addEntryObj` raise. |
| RoundTrip.DataOfUserOmeroUri | _downloads/efc33b4d6bc4bc00b31ac39535f231c6/ELN_writer.py:182 | For user name OMERO_URI, `hasPart` reaches the Person, so all data fields are None. |
| RoundTrip.GraphOfUserOmeroUri | _downloads/efc33b4d6bc4bc00b31ac39535f231c6/ELN_writer.py:182 | That crate reads back with no user and no text. |
| RoundTrip.UserOmeroUriLosesData | _downloads/efc33b4d6bc4bc00b31ac39535f231c6/ELN_writer.py:140 | A crate of user name OMERO_URI is rejected with "ERROR parsing userName". |
| CoreMetadata.Metadata.FillDict | src/omero_JSONQueryToolbox/omeroJSON_grabber.py:148-153 | Only `mdict[id][key]` changes, in place: an existing key keeps its position, a new one is appended. A missing record raises KeyError and changes nothing. |
| CoreMetadata.Metadata.FillDictDefault | src/omero_JSONQueryToolbox/omeroJSON_grabber.py:156-166 | The ten fields are set to "-" in order on that record only. |
| CoreMetadata.DefaultsOverPartial | src/omero_JSONQueryToolbox/omeroJSON_grabber.py:156-166 | On a record holding a prefix of the ten fields, the defaults give exactly the ten fields, all "-", in order. |
| CoreMetadata.Metadata.GetHeaders | src/omero_JSONQueryToolbox/omeroJSON_grabber.py:136-145 | The headers are the keys of the last record iterated, or [] for empty metadata. |
| CoreMetadata.FlagRowFields | src/omero_JSONQueryToolbox/omeroJSON_grabber.py:208-210 | A flagged row holds the ten fields: the given ID and description, and "-" elsewhere. |
| CoreMetadata.Metadata.Flag | src/omero_JSONQueryToolbox/omeroJSON_grabber.py:234-236 | Defaults, then ID, then description, leave the flagged row in place. |
| CoreMetadata.Metadata.FillImage | src/omero_JSONQueryToolbox/omeroJSON_grabber.py:216-236 | The inner `try` either completes the row the image JSON gives, or stops with the failure, leaving a partial record in place. |
| CoreMetadata.Metadata.FillFields | src/omero_JSONQueryToolbox/omeroJSON_grabber.py:221-230 | The ten assignments run in order up to the first failing lookup. The fields before it hold their looked-up values. |
| CoreMetadata.Metadata.SetField | src/omero_JSONQueryToolbox/omeroJSON_grabber.py:221-230 | One assignment adds the next field's value. |
| CoreMetadata.Metadata.FillRow | src/omero_JSONQueryToolbox/omeroJSON_grabber.py:202-249 | One pass of the ID loop leaves exactly that ID's row in the dict, and no other record changes. |
| CoreMetadata.Metadata.ExpandIds | src/omero_JSONQueryToolbox/omeroJSON_grabber.py:171-195 | `imageIDsList` is the dataset expansion, or the given IDs. |
| CoreMetadata.Metadata.GetCoreMetadata | src/omero_JSONQueryToolbox/omeroJSON_grabber.py:169-251 | An empty ID list returns None with the dict unchanged. Otherwise the dict is the rows of all IDs, in order. |
| CoreMetadata.ListDataset | src/omero_JSONQueryToolbox/omeroJSON_grabber.py:176-192 | The `while` loop collects the dataset's image IDs, with -2 on failure. |
| CoreMetadata.CollectUpTo | src/omero_JSONQueryToolbox/omeroJSON_grabber.py:184-189 | The loop collects every readable `@id` in order. |
| CoreMetadata.ReadableDataset | src/omero_JSONQueryToolbox/omeroJSON_grabber.py:183-189 | A listing whose first totalCount entries are readable gives exactly their `@id`s, in order. |
| CoreMetadata.UnreadableEntry | src/omero_JSONQueryToolbox/omeroJSON_grabber.py:185-192 | An unreadable entry gives the IDs before it, then -2. |
| CoreMetadata.EmptyOrMissingDataset | src/omero_JSONQueryToolbox/omeroJSON_grabber.py:176-192 | totalCount 0, or a failed lookup, gives [-2]. A negative count gives []. |
| CoreMetadata.RowForKeys | src/omero_JSONQueryToolbox/omeroJSON_grabber.py:202-249 | Every ID's record has the ten fields, in order. |
| CoreMetadata.MissingDatasetRow | src/omero_JSONQueryToolbox/omeroJSON_grabber.py:207-210 | -2 gives ID -1 and "One given ID does not correspond to an existing OMERO dataset". |
| CoreMetadata.MissingImageRow | src/omero_JSONQueryToolbox/omeroJSON_grabber.py:244-249 | A failed image request gives the ID and "This image does not exist in the OMERO database". |
| CoreMetadata.OwnerGetsImageFields | src/omero_JSONQueryToolbox/omeroJSON_grabber.py:219-230 | The owner's row holds the ten looked-up values, including their own user name. |
| CoreMetadata.OtherOwnerIsDenied | src/omero_JSONQueryToolbox/omeroJSON_grabber.py:231-236 | Another owner gives the image `@id`, "This ELN User is not the image owner: metadata access denied" and "-" elsewhere. |
| CoreMetadata.ImageRowErrorIff | src/omero_JSONQueryToolbox/omeroJSON_grabber.py:216-243 | The inner handler runs exactly when the id or owner lookup fails, or when the owner's image lacks a field. |
| CoreMetadata.FailedLookupRow | src/omero_JSONQueryToolbox/omeroJSON_grabber.py:238-243 | The handler writes the ID and "Error: cannot get imgjson for ID <id>: <message> ". |
| CoreMetadata.FillRowsKeeps | src/omero_JSONQueryToolbox/omeroJSON_grabber.py:202-204 | Keys no ID produces keep their records. |
| CoreMetadata.FillRowsLastWins | src/omero_JSONQueryToolbox/omeroJSON_grabber.py:202-204 | The last ID with a given text decides that key's record. |
| CoreMetadata.FillRowsShape | src/omero_JSONQueryToolbox/omeroJSON_grabber.py:202-251 | Keys stay distinct, and every record has the ten fields. |
| Markdown.Chunks | src/omero_JSONQueryToolbox/omeroJSON_grabber.py:87 | There are ceil(len/18) chunks. All but the last have 18 characters, and none is empty. |
| Markdown.ChunksConcat | src/omero_JSONQueryToolbox/omeroJSON_grabber.py:87 | The chunks concatenate back to `str(v)`. |
| Markdown.Center | src/omero_JSONQueryToolbox/omeroJSON_grabber.py:87 | `str.center` keeps the text whole, pads with blanks to the width, and splits the margins to within one. |
| Markdown.ShortCell | src/omero_JSONQueryToolbox/omeroJSON_grabber.py:87 | A value of at most 18 characters is one chunk, centred to exactly 20. |
| Markdown.Shown | src/omero_JSONQueryToolbox/omeroJSON_grabber.py:88 | The shown positions are exactly those whose key is a header, in increasing order. |
| Markdown.CellsAreShown | src/omero_JSONQueryToolbox/omeroJSON_grabber.py:85-88 | A body row holds the cells of the header keys only, in the record's order. |
| Markdown.FullRecordCells | src/omero_JSONQueryToolbox/omeroJSON_grabber.py:85-88 | A record whose keys are the headers shows every value, in order. |
| Markdown.HeaderColumns | src/omero_JSONQueryToolbox/omeroJSON_grabber.py:81 | Splitting the header row at '|' gives each header centred to width 20. |
| Markdown.SeparatorColumns | src/omero_JSONQueryToolbox/omeroJSON_grabber.py:83 | The separator row is one run of 20 dashes per header. |
| Markdown.Lines | src/omero_JSONQueryToolbox/omeroJSON_grabber.py:76-88 | The rows are the header row, the separator row, then one body row per record. |
| Markdown.WrittenLines | src/omero_JSONQueryToolbox/omeroJSON_grabber.py:89-91 | The file is each row framed by '|', one per line. |
| Markdown.CollectedTable | src/omero_JSONQueryToolbox/omeroJSON_grabber.py:136-145 | For the dict `get_core_metadata` fills, the headers are the ten fields, and every body row shows all ten values. |

## Left out

- The OMERO and openBIS SDK calls, HTTP sessions, file and archive I/O, e-mail and argparse wiring are not modelled. The HTTP answers of `get_core_metadata` are input maps, where a missing entry is a failed request. The image records `get_img_metadata` builds are not part of this model.
- `load_rocrate` and `json.load` are not modelled. The reader starts from the parsed value.
- `json.dumps` text is not modelled. The crate is a JSON value, and timestamps are opaque strings, one per `datetime.now()` call.
- The key order of the builder dicts is not modelled. Nodes are maps, and the reader only uses `.get`.
- `eval` of the Tags and Key-Value cells is not modelled. Those cells are given as already-parsed lists.
  - A tag without `Name`, or a pair without `Key`/`Value`, would make the concatenation raise. This is not modelled.
  - `csv.reader` itself is not modelled; the header row and the records are inputs.
  - An empty CSV file makes `next` raise StopIteration. This is not modelled.
- The `htmlString is "NOTHING"` identity test and the rest of `addEntryObj` after validation are not modelled. They are openBIS calls, and the identity test depends on string interning.
- `markdown.markdown`, `save_output` and `save_to_csv` are not modelled.
- JSON floats are not modelled. Python's cross-type equality (`True == 1`, `1 == 1.0`) is not modelled: numbers are integers and compare by type.
- `\s`, `\d` and `lower()` are modelled for ASCII (and the C0 separators that `\s` matches) only.
- Markdown.PyStr: `str()` is modelled for None, booleans, integers and strings only. Records holding lists (Tags, Key-Value Pairs) are not rendered.
- CoreMetadata.IsDatasetType: `re.match(idtype, "Dataset", re.IGNORECASE)` is modelled with `idtype` read literally, as a case-insensitive prefix of "Dataset".
- CoreMetadata.DatasetReply: a dataset listing with a non-integer or missing `@id` in entry `i` is one "unreadable entry". `str(ID)` is modelled for integer and text IDs only.
- Receiver.Traces: an action whose object id cannot be read contributes "" to the trace. The search stops with an exception at such an action, so this case never reaches the trace.
- ParseUrl.ParseUrl: the corrected check compares the ELN address literally. It is the reading the rest of the model uses, next to ParseUrl.ParseUrlAsWritten.

## Findings

| source | as written | input that shows it | evidently intended | confidence | as-written member | corrected member |
|---|---|---|---|---|---|---|
| _downloads/efc33b4d6bc4bc00b31ac39535f231c6/ELN_writer.py:469 | `re.search("^%s" % ELN_URI, url)` uses the unescaped address as a pattern, so each `.` in "https://my.eln.de" matches any character | "https://myXelnYde/12345678901234567-1/12345678901234567-2" passes the check and yields "12345678901234567-2" | only links that start with the ELN address itself are accepted | medium, not executed | ParseUrl.LookalikeHostPasses | ParseUrl.ObjectLinkGivesItsPermId |
