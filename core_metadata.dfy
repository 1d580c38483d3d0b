/** `omeroJSON_grabber`: the core metadata of OMERO images, collected per
    image ID into the nested `metadata` dict. The dict is changed in place
    by `fill_dict`, `fill_dict_default` and `get_core_metadata`; the answers
    of the OMERO JSON API are inputs: a map from dataset id to the parsed
    dataset listing, and a map from image id text to the parsed image JSON
    (a missing entry is a request that failed). */
module CoreMetadata {

  import opened Strings
  import opened Json
  import opened Dicts

  /** One record: field name to value, in insertion order. */
  type Record = seq<(string, JValue)>

  /** The metadata dict: `str(ID)` to record, in insertion order. */
  type Entries = seq<(string, Record)>

  /** The ten fields of a record, in the order every path writes them. */
  const FIELDS: seq<string> :=
    ["Name", "ID", "Username", "Description", "SizeX", "SizeY", "Pixel Type", "SizeZ", "SizeC", "SizeT"]
  const ID_FIELD := 1
  const DESCRIPTION_FIELD := 3

  const DASH := JStr("-")

  const NO_DATASET := "One given ID does not correspond to an existing OMERO dataset"
  const NOT_OWNER := "This ELN User is not the image owner: metadata access denied"
  const NO_IMAGE := "This image does not exist in the OMERO database"

  lemma FieldsDistinct()
    ensures forall i, j :: 0 <= i < j < |FIELDS| ==> FIELDS[i] != FIELDS[j]
  {
  }

  /** Values for the ten fields. */
  function Dashes(): (vs: seq<JValue>)
    ensures |vs| == |FIELDS|
    ensures forall i :: 0 <= i < |vs| ==> vs[i] == DASH
  {
    seq(|FIELDS|, _ => DASH)
  }

  /** What `fill_dict_default` leaves in a fresh record: "-" everywhere. */
  function DefaultRow(): Record
  {
    Zip(FIELDS, Dashes())
  }

  /** A default row whose ID and description are then set. */
  function FlagRow(id: JValue, description: string): Record
  {
    Zip(FIELDS, Dashes()[ID_FIELD := id][DESCRIPTION_FIELD := JStr(description)])
  }

  // ---------------------------------------------------------------------
  // Image IDs
  // ---------------------------------------------------------------------

  /** An entry of `imageIDsList`: the ID texts given on the command line, or
      the integer `@id`s of dataset listings (and -2 for a dataset that
      could not be read). */
  datatype ImageId = IntId(n: int) | TextId(s: string)

  const MISSING_DATASET := IntId(-2)

  /** `"%s" % ID` */
  function IdText(id: ImageId): string
  {
    match id
    case IntId(n) => IntString(n)
    case TextId(s) => s
  }

  /** The ID itself, as `fill_dict` stores it. */
  function IdValue(id: ImageId): JValue
  {
    match id
    case IntId(n) => JNum(n)
    case TextId(s) => JStr(s)
  }

  /** A parsed dataset listing: `meta.totalCount`, and the `@id` of each
      entry of `data` (None for an entry without one). */
  datatype DatasetReply = DatasetReply(totalCount: int, ids: seq<Option<int>>)

  /** The `while i < imgCount` loop from `i` on: it stops with -2 at the
      first entry it cannot read. */
  function CollectFrom(ids: seq<Option<int>>, i: nat, count: int): seq<ImageId>
    decreases count - i
  {
    if i >= count then []
    else if i < |ids| && ids[i].Some? then [IntId(ids[i].value)] + CollectFrom(ids, i + 1, count)
    else [MISSING_DATASET]
  }

  /** The image IDs one dataset contributes; None is a request or a reply
      without `meta.totalCount`, which the handler turns into -2. */
  function DatasetImages(reply: Option<DatasetReply>): seq<ImageId>
  {
    match reply
    case None => [MISSING_DATASET]
    case Some(r) => if r.totalCount == 0 then [MISSING_DATASET] else CollectFrom(r.ids, 0, r.totalCount)
  }

  function ReplyFor(datasets: map<string, DatasetReply>, d: string): Option<DatasetReply>
  {
    if d in datasets then Some(datasets[d]) else None
  }

  /** The dataset branch over all dataset ids. */
  function DatasetsImages(idList: seq<string>, datasets: map<string, DatasetReply>): seq<ImageId>
  {
    if idList == [] then []
    else DatasetsImages(idList[..|idList| - 1], datasets) + DatasetImages(ReplyFor(datasets, idList[|idList| - 1]))
  }

  /** `re.match(idtype, "Dataset", re.IGNORECASE)`, reading the pattern
      literally. */
  predicate IsDatasetType(idType: string)
  {
    IsPrefix(AsciiLower(idType), "dataset")
  }

  /** `imageIDsList` once the first part of `get_core_metadata` is done. */
  function ImageIds(idList: seq<string>, idType: string, datasets: map<string, DatasetReply>): seq<ImageId>
  {
    if IsDatasetType(idType) then DatasetsImages(idList, datasets)
    else seq(|idList|, i requires 0 <= i < |idList| => TextId(idList[i]))
  }

  // ---------------------------------------------------------------------
  // Image JSON lookups
  // ---------------------------------------------------------------------

  /** Why a chain of `[...]` lookups stopped. */
  datatype Failure = MissingKey(key: string) | NotSubscriptable(v: JValue)

  /** Where a chain of lookups got to. */
  datatype Reached = At(v: JValue) | Stuck(failure: Failure)

  /** `v[k]` with a string key. */
  function Index(v: JValue, k: string): Reached
  {
    if !v.JObj? then Stuck(NotSubscriptable(v))
    else if k in v.fields then At(v.fields[k])
    else Stuck(MissingKey(k))
  }

  /** `v[k0][k1]...` */
  function Path(v: JValue, ks: seq<string>): Reached
  {
    if ks == [] then At(v)
    else match Index(v, ks[0])
      case At(w) => Path(w, ks[1..])
      case Stuck(f) => Stuck(f)
  }

  /** `str(e)` for the exception a lookup raised (CPython 3.11 wording). */
  function Message(f: Failure): string
  {
    match f
    case MissingKey(k) => "'" + k + "'"
    case NotSubscriptable(v) =>
      match v
      case JStr(_) => "string indices must be integers, not 'str'"
      case JArr(_) => "list indices must be integers or slices, not str"
      case JNull => "'NoneType' object is not subscriptable"
      case JBool(_) => "'bool' object is not subscriptable"
      case JNum(_) => "'int' object is not subscriptable"
      case JObj(_) => ""
  }

  const ID_PATH: seq<string> := ["data", "@id"]
  const OWNER_PATH: seq<string> := ["data", "omero:details", "owner", "UserName"]

  /** Where each of the ten fields comes from in the image JSON. */
  const FIELD_PATHS: seq<seq<string>> := [
    ["data", "Name"], ID_PATH, OWNER_PATH, ["data", "Description"],
    ["data", "Pixels", "SizeX"], ["data", "Pixels", "SizeY"], ["data", "Pixels", "Type", "value"],
    ["data", "Pixels", "SizeZ"], ["data", "Pixels", "SizeC"], ["data", "Pixels", "SizeT"]]

  /** The first of the lookups along `paths` from `i` on that fails. */
  function FirstStuck(img: JValue, paths: seq<seq<string>>, i: nat): (r: Option<nat>)
    requires i <= |paths|
    ensures r.Some? ==> i <= r.value < |paths| && Path(img, paths[r.value]).Stuck?
    ensures r.Some? ==> forall j :: i <= j < r.value ==> Path(img, paths[j]).At?
    ensures r.None? <==> forall j :: i <= j < |paths| ==> Path(img, paths[j]).At?
    decreases |paths| - i
  {
    if i == |paths| then None
    else if Path(img, paths[i]).Stuck? then Some(i)
    else FirstStuck(img, paths, i + 1)
  }

  /** The values of the first `n` fields, all of which are found. */
  function FieldValues(img: JValue, n: nat): (vs: seq<JValue>)
    requires n <= |FIELD_PATHS|
    requires forall j :: 0 <= j < n ==> Path(img, FIELD_PATHS[j]).At?
    ensures |vs| == n
    ensures forall j :: 0 <= j < n ==> vs[j] == Path(img, FIELD_PATHS[j]).v
  {
    seq(n, j requires 0 <= j < n => Path(img, FIELD_PATHS[j]).v)
  }

  /** How the inner `try` of the image branch ends: a record, or the
      failure its handler reports. */
  datatype ImageRow = Row(rec: Record) | Error(failure: Failure)

  function ImageRowOf(img: JValue, user: string): ImageRow
  {
    var id := Path(img, ID_PATH);
    var owner := Path(img, OWNER_PATH);
    if id.Stuck? then Error(id.failure)
    else if owner.Stuck? then Error(owner.failure)
    else if owner.v != JStr(user) then Row(FlagRow(id.v, NOT_OWNER))
    else match FirstStuck(img, FIELD_PATHS, 0)
      case Some(j) => Error(Path(img, FIELD_PATHS[j]).failure)
      case None => Row(Zip(FIELDS, FieldValues(img, |FIELD_PATHS|)))
  }

  /** The description the handler writes for a failed lookup. */
  function ErrorText(id: ImageId, f: Failure): string
  {
    "Error: cannot get imgjson for ID " + IdText(id) + ": " + Message(f) + " "
  }

  /** The record `get_core_metadata` leaves for one image ID. */
  function RowFor(id: ImageId, user: string, images: map<string, JValue>): Record
  {
    if id == MISSING_DATASET then FlagRow(JNum(-1), NO_DATASET)
    else if IdText(id) !in images then FlagRow(IdValue(id), NO_IMAGE)
    else match ImageRowOf(images[IdText(id)], user)
      case Row(rec) => rec
      case Error(f) => FlagRow(IdValue(id), ErrorText(id, f))
  }

  /** The `for ID in imageIDsList` loop over the remaining IDs. */
  function FillRows(entries: Entries, ids: seq<ImageId>, user: string, images: map<string, JValue>): Entries
    decreases |ids|
  {
    if ids == [] then entries
    else FillRows(Put(entries, IdText(ids[0]), RowFor(ids[0], user, images)), ids[1..], user, images)
  }

  // ---------------------------------------------------------------------
  // What the rows say
  // ---------------------------------------------------------------------

  /** Each field of a record built from ten values holds its value. */
  lemma FieldsLookup(vals: seq<JValue>)
    requires |vals| == |FIELDS|
    ensures forall i :: 0 <= i < |FIELDS| ==> Lookup(Zip(FIELDS, vals), FIELDS[i]) == Some(vals[i])
  {
    FieldsDistinct();
    forall i | 0 <= i < |FIELDS|
      ensures Lookup(Zip(FIELDS, vals), FIELDS[i]) == Some(vals[i])
    {
      LookupZip(FIELDS, vals, i);
    }
  }

  /** A flagged row holds the ten fields in order: its ID and description
      as given and "-" in every other field. */
  lemma FlagRowFields(id: JValue, description: string)
    ensures Keys(FlagRow(id, description)) == FIELDS
    ensures Lookup(FlagRow(id, description), "ID") == Some(id)
    ensures Lookup(FlagRow(id, description), "Description") == Some(JStr(description))
    ensures forall i :: 0 <= i < |FIELDS| && i != ID_FIELD && i != DESCRIPTION_FIELD ==>
      Lookup(FlagRow(id, description), FIELDS[i]) == Some(DASH)
  {
    FieldsLookup(Dashes()[ID_FIELD := id][DESCRIPTION_FIELD := JStr(description)]);
    assert FIELDS[ID_FIELD] == "ID" && FIELDS[DESCRIPTION_FIELD] == "Description";
  }

  /** Whatever happens to an ID, its record has the ten fields in order. */
  lemma RowForKeys(id: ImageId, user: string, images: map<string, JValue>)
    ensures Keys(RowFor(id, user, images)) == FIELDS
  {
    if id == MISSING_DATASET {
      FlagRowFields(JNum(-1), NO_DATASET);
    } else if IdText(id) !in images {
      FlagRowFields(IdValue(id), NO_IMAGE);
    } else {
      var row := ImageRowOf(images[IdText(id)], user);
      ImageRowKeys(images[IdText(id)], user);
      if row.Error? {
        FlagRowFields(IdValue(id), ErrorText(id, row.failure));
      }
    }
  }

  /** A record the image branch completes has the ten fields in order. */
  lemma ImageRowKeys(img: JValue, user: string)
    ensures ImageRowOf(img, user).Row? ==> Keys(ImageRowOf(img, user).rec) == FIELDS
  {
    var id := Path(img, ID_PATH);
    if id.At? {
      FlagRowFields(id.v, NOT_OWNER);
    }
  }

  /** The -2 left by an unreadable dataset becomes a row with ID -1 that
      says the dataset does not exist. */
  lemma MissingDatasetRow(user: string, images: map<string, JValue>)
    ensures Lookup(RowFor(MISSING_DATASET, user, images), "ID") == Some(JNum(-1))
    ensures Lookup(RowFor(MISSING_DATASET, user, images), "Description") == Some(JStr(NO_DATASET))
  {
    FlagRowFields(JNum(-1), NO_DATASET);
  }

  /** An ID whose image request failed is reported as not existing. */
  lemma MissingImageRow(id: ImageId, user: string, images: map<string, JValue>)
    requires id != MISSING_DATASET && IdText(id) !in images
    ensures Lookup(RowFor(id, user, images), "ID") == Some(IdValue(id))
    ensures Lookup(RowFor(id, user, images), "Description") == Some(JStr(NO_IMAGE))
  {
    FlagRowFields(IdValue(id), NO_IMAGE);
  }

  /** The image branch for the owner, when no lookup fails. */
  lemma OwnerImageRow(img: JValue, user: string)
    requires Path(img, OWNER_PATH) == At(JStr(user))
    requires forall j :: 0 <= j < |FIELD_PATHS| ==> Path(img, FIELD_PATHS[j]).At?
    ensures ImageRowOf(img, user) == Row(Zip(FIELDS, FieldValues(img, |FIELD_PATHS|)))
  {
    assert Path(img, FIELD_PATHS[ID_FIELD]).At?;
  }

  /** The owner of an image whose lookups all succeed gets its ten
      values, in particular their own user name. */
  lemma OwnerGetsImageFields(id: ImageId, user: string, images: map<string, JValue>)
    requires id != MISSING_DATASET && IdText(id) in images
    requires Path(images[IdText(id)], OWNER_PATH) == At(JStr(user))
    requires forall j :: 0 <= j < |FIELD_PATHS| ==> Path(images[IdText(id)], FIELD_PATHS[j]).At?
    ensures forall i :: 0 <= i < |FIELDS| ==>
      Lookup(RowFor(id, user, images), FIELDS[i]) == Some(Path(images[IdText(id)], FIELD_PATHS[i]).v)
    ensures Lookup(RowFor(id, user, images), "Username") == Some(JStr(user))
  {
    var img := images[IdText(id)];
    OwnerImageRow(img, user);
    assert RowFor(id, user, images) == Zip(FIELDS, FieldValues(img, |FIELD_PATHS|));
    FieldsLookup(FieldValues(img, |FIELD_PATHS|));
    assert FIELDS[2] == "Username" && FIELD_PATHS[2] == OWNER_PATH;
  }

  /** Another user's image gives a row with only its ID and the denial,
      even when its other lookups would fail. */
  lemma OtherOwnerIsDenied(id: ImageId, user: string, images: map<string, JValue>)
    requires id != MISSING_DATASET && IdText(id) in images
    requires Path(images[IdText(id)], ID_PATH).At? && Path(images[IdText(id)], OWNER_PATH).At?
    requires Path(images[IdText(id)], OWNER_PATH).v != JStr(user)
    ensures Lookup(RowFor(id, user, images), "ID") == Some(Path(images[IdText(id)], ID_PATH).v)
    ensures Lookup(RowFor(id, user, images), "Description") == Some(JStr(NOT_OWNER))
    ensures Lookup(RowFor(id, user, images), "Name") == Some(DASH)
  {
    FlagRowFields(Path(images[IdText(id)], ID_PATH).v, NOT_OWNER);
    assert FIELDS[0] == "Name";
  }

  /** The inner handler runs exactly when the ID or owner lookup fails, or
      the owner's image lacks one of the ten values. */
  lemma ImageRowErrorIff(img: JValue, user: string)
    ensures ImageRowOf(img, user).Error? <==>
      Path(img, ID_PATH).Stuck? || Path(img, OWNER_PATH).Stuck? ||
      (Path(img, OWNER_PATH) == At(JStr(user)) &&
       exists j :: 0 <= j < |FIELD_PATHS| && Path(img, FIELD_PATHS[j]).Stuck?)
  {
    if Path(img, ID_PATH).At? && Path(img, OWNER_PATH) == At(JStr(user)) {
      if exists j :: 0 <= j < |FIELD_PATHS| && Path(img, FIELD_PATHS[j]).Stuck? {
        assert FirstStuck(img, FIELD_PATHS, 0).Some?;
      }
    }
  }

  /** A failed lookup leaves the ID and the error text, whose last part is
      the exception message. */
  lemma FailedLookupRow(id: ImageId, user: string, images: map<string, JValue>)
    requires id != MISSING_DATASET && IdText(id) in images
    requires ImageRowOf(images[IdText(id)], user).Error?
    ensures Lookup(RowFor(id, user, images), "ID") == Some(IdValue(id))
    ensures Lookup(RowFor(id, user, images), "Description") ==
      Some(JStr("Error: cannot get imgjson for ID " + IdText(id) + ": " +
                Message(ImageRowOf(images[IdText(id)], user).failure) + " "))
  {
    FlagRowFields(IdValue(id), ErrorText(id, ImageRowOf(images[IdText(id)], user).failure));
  }

  // ---------------------------------------------------------------------
  // What a dataset contributes
  // ---------------------------------------------------------------------

  /** The `@id`s of entries `i` to `j - 1`, all of which are readable. */
  function ReadIds(ids: seq<Option<int>>, i: nat, j: nat): (r: seq<ImageId>)
    requires i <= j <= |ids| && forall k :: i <= k < j ==> ids[k].Some?
    ensures |r| == j - i && forall k :: 0 <= k < j - i ==> r[k] == IntId(ids[i + k].value)
  {
    seq(j - i, k requires 0 <= k < j - i => IntId(ids[i + k].value))
  }

  /** From `i` on, the loop collects every readable entry before `j`, and
      at `j` it either stops at the count or adds -2 and stops. */
  lemma {:induction false} CollectUpTo(ids: seq<Option<int>>, i: nat, j: nat, count: int)
    requires i <= j <= |ids| && j <= count && forall k :: i <= k < j ==> ids[k].Some?
    ensures CollectFrom(ids, i, count) == ReadIds(ids, i, j) + CollectFrom(ids, j, count)
    decreases j - i
  {
    if i < j {
      CollectUpTo(ids, i + 1, j, count);
      assert ReadIds(ids, i, j) == [IntId(ids[i].value)] + ReadIds(ids, i + 1, j);
    } else {
      assert ReadIds(ids, i, j) == [];
    }
  }

  /** A listing whose first `totalCount` entries all have an `@id` gives
      exactly those ids, in order. */
  lemma ReadableDataset(r: DatasetReply)
    requires 0 < r.totalCount <= |r.ids|
    requires forall k :: 0 <= k < r.totalCount ==> r.ids[k].Some?
    ensures DatasetImages(Some(r)) == ReadIds(r.ids, 0, r.totalCount)
  {
    CollectUpTo(r.ids, 0, r.totalCount, r.totalCount);
  }

  /** A listing whose entry `j` cannot be read, before the count is
      reached, gives the ids before it and then -2. */
  lemma UnreadableEntry(r: DatasetReply, j: nat)
    requires j < r.totalCount && j <= |r.ids|
    requires forall k :: 0 <= k < j ==> r.ids[k].Some?
    requires j == |r.ids| || r.ids[j].None?
    ensures DatasetImages(Some(r)) == ReadIds(r.ids, 0, j) + [MISSING_DATASET]
  {
    CollectUpTo(r.ids, 0, j, r.totalCount);
  }

  /** An empty, unreadable or missing dataset gives -2; a negative count
      gives nothing, as the loop never runs. */
  lemma EmptyOrMissingDataset(reply: Option<DatasetReply>)
    ensures reply.None? || reply.value.totalCount == 0 ==> DatasetImages(reply) == [MISSING_DATASET]
    ensures reply.Some? && reply.value.totalCount < 0 ==> DatasetImages(reply) == []
  {
  }

  // ---------------------------------------------------------------------
  // What the loop over the IDs leaves in the dict
  // ---------------------------------------------------------------------

  /** Keys that no ID produces keep their records. */
  lemma {:induction false} FillRowsKeeps(entries: Entries, ids: seq<ImageId>, user: string,
                                         images: map<string, JValue>, k: string)
    requires forall j :: 0 <= j < |ids| ==> IdText(ids[j]) != k
    ensures Lookup(FillRows(entries, ids, user, images), k) == Lookup(entries, k)
    decreases |ids|
  {
    if ids != [] {
      PutLookup(entries, IdText(ids[0]), RowFor(ids[0], user, images), k);
      FillRowsKeeps(Put(entries, IdText(ids[0]), RowFor(ids[0], user, images)), ids[1..], user, images, k);
    }
  }

  /** The last ID with a given text decides its record. */
  lemma {:induction false} FillRowsLastWins(entries: Entries, ids: seq<ImageId>, user: string,
                                            images: map<string, JValue>, j: nat)
    requires j < |ids| && forall k :: j < k < |ids| ==> IdText(ids[k]) != IdText(ids[j])
    ensures Lookup(FillRows(entries, ids, user, images), IdText(ids[j])) == Some(RowFor(ids[j], user, images))
    decreases |ids|
  {
    var next := Put(entries, IdText(ids[0]), RowFor(ids[0], user, images));
    if j == 0 {
      PutLookup(entries, IdText(ids[0]), RowFor(ids[0], user, images), IdText(ids[0]));
      FillRowsKeeps(next, ids[1..], user, images, IdText(ids[0]));
    } else {
      FillRowsLastWins(next, ids[1..], user, images, j - 1);
    }
  }

  /** Every record in the dict has the ten fields. */
  predicate AllRows(entries: Entries)
  {
    forall r :: 0 <= r < |entries| ==> Keys(entries[r].1) == FIELDS
  }

  /** Keys stay distinct and every record keeps the ten fields, so the
      headers `get_headers` reads are the ten field names. */
  lemma {:induction false} FillRowsShape(entries: Entries, ids: seq<ImageId>, user: string,
                                         images: map<string, JValue>)
    requires DistinctKeys(entries) && AllRows(entries)
    ensures DistinctKeys(FillRows(entries, ids, user, images))
    ensures AllRows(FillRows(entries, ids, user, images))
    ensures entries != [] || ids != [] ==> FillRows(entries, ids, user, images) != []
    decreases |ids|
  {
    if ids != [] {
      var row := RowFor(ids[0], user, images);
      RowForKeys(ids[0], user, images);
      PutKeys(entries, IdText(ids[0]), row);
      var next := Put(entries, IdText(ids[0]), row);
      assert AllRows(next);
      FillRowsShape(next, ids[1..], user, images);
    }
  }

  // ---------------------------------------------------------------------
  // Records that hold a prefix of the ten fields
  // ---------------------------------------------------------------------

  /** Setting field `i` of a record that holds the first `m` fields, with
      `i <= m`: an existing field keeps its place, the next one is added. */
  lemma PutField(m: nat, vals: seq<JValue>, i: nat, v: JValue)
    requires m <= |FIELDS| && |vals| == m && i <= m && i < |FIELDS|
    ensures i < m ==> Put(Zip(FIELDS[..m], vals), FIELDS[i], v) == Zip(FIELDS[..m], vals[i := v])
    ensures i == m ==> Put(Zip(FIELDS[..m], vals), FIELDS[i], v) == Zip(FIELDS[..m + 1], vals + [v])
  {
    FieldsDistinct();
    if i < m {
      PutZipAt(FIELDS[..m], vals, i, v);
    } else {
      PutZipNew(FIELDS[..m], vals, FIELDS[i], v);
      assert FIELDS[..m] + [FIELDS[i]] == FIELDS[..m + 1];
    }
  }

  /** The record holds the first fields, in order. */
  predicate IsPartial(rec: Record)
  {
    |rec| <= |FIELDS| && Keys(rec) == FIELDS[..|rec|]
  }

  /** `d[k] = v` for each key in turn. */
  function PutAll(rec: Record, ks: seq<string>, v: JValue): Record
  {
    if ks == [] then rec else Put(PutAll(rec, ks[..|ks| - 1], v), ks[|ks| - 1], v)
  }

  /** The values of a record, in order. */
  function Values(rec: Record): (vs: seq<JValue>)
    ensures |vs| == |rec|
    ensures forall j :: 0 <= j < |rec| ==> vs[j] == rec[j].1
  {
    seq(|rec|, j requires 0 <= j < |rec| => rec[j].1)
  }

  /** A partial record is its field names zipped with its values. */
  lemma PartialIsZip(rec: Record)
    requires IsPartial(rec)
    ensures Zip(FIELDS[..|rec|], Values(rec)) == rec
  {
    assert forall j :: 0 <= j < |rec| ==> rec[j].0 == Keys(rec)[j];
  }

  /** `n` copies of `v`. */
  function Repeated(n: nat, v: JValue): (vs: seq<JValue>)
    ensures |vs| == n && forall k :: 0 <= k < n ==> vs[k] == v
  {
    seq(n, _ => v)
  }

  /** `vals` with its first `i` values replaced by `v`. */
  function Overwritten(vals: seq<JValue>, i: nat, v: JValue): (ws: seq<JValue>)
    ensures |ws| == |vals|
    ensures forall k :: 0 <= k < |vals| ==> ws[k] == if k < i then v else vals[k]
  {
    seq(|vals|, k requires 0 <= k < |vals| => if k < i then v else vals[k])
  }

  /** Setting the first `i` keys of a dict with distinct keys, one by one,
      overwrites their values in place. */
  lemma {:induction false} PutAllInside(ks: seq<string>, vals: seq<JValue>, i: nat, v: JValue)
    requires |ks| == |vals| && i <= |ks|
    requires forall a, b :: 0 <= a < b < |ks| ==> ks[a] != ks[b]
    ensures PutAll(Zip(ks, vals), ks[..i], v) == Zip(ks, Overwritten(vals, i, v))
  {
    if i == 0 {
      assert Overwritten(vals, 0, v) == vals;
    } else {
      PutAllInside(ks, vals, i - 1, v);
      assert ks[..i][..i - 1] == ks[..i - 1];
      PutZipAt(ks, Overwritten(vals, i - 1, v), i - 1, v);
      assert Overwritten(vals, i - 1, v)[i - 1 := v] == Overwritten(vals, i, v);
    }
  }

  /** Setting the first `i` keys of a dict that holds only the first `m`
      of them: the first `m` are overwritten, the others appended. */
  lemma {:induction false} PutAllBeyond(ks: seq<string>, vals: seq<JValue>, i: nat, v: JValue)
    requires |vals| <= i <= |ks|
    requires forall a, b :: 0 <= a < b < |ks| ==> ks[a] != ks[b]
    ensures PutAll(Zip(ks[..|vals|], vals), ks[..i], v) == Zip(ks[..i], Repeated(i, v))
    decreases i
  {
    var m := |vals|;
    if i == m {
      PutAllInside(ks[..m], vals, m, v);
      assert ks[..m][..m] == ks[..m];
      assert Overwritten(vals, m, v) == Repeated(m, v);
    } else {
      PutAllBeyond(ks, vals, i - 1, v);
      assert ks[..i][..i - 1] == ks[..i - 1];
      AppendKey(ks, i, v);
    }
  }

  /** Setting key `i - 1` of a dict that holds the keys before it. */
  lemma AppendKey(ks: seq<string>, i: nat, v: JValue)
    requires 0 < i <= |ks|
    requires forall a, b :: 0 <= a < b < |ks| ==> ks[a] != ks[b]
    ensures Put(Zip(ks[..i - 1], Repeated(i - 1, v)), ks[i - 1], v) == Zip(ks[..i], Repeated(i, v))
  {
    assert ks[i - 1] !in ks[..i - 1];
    PutZipNew(ks[..i - 1], Repeated(i - 1, v), ks[i - 1], v);
    assert ks[..i - 1] + [ks[i - 1]] == ks[..i];
    assert Repeated(i - 1, v) + [v] == Repeated(i, v);
  }

  /** `fill_dict_default` turns a partial record into the default row. */
  lemma DefaultsOverPartial(rec: Record)
    requires IsPartial(rec)
    ensures PutAll(rec, FIELDS, DASH) == DefaultRow()
  {
    FieldsDistinct();
    PartialIsZip(rec);
    PutAllBeyond(FIELDS, Values(rec), |FIELDS|, DASH);
    assert FIELDS[..|FIELDS|] == FIELDS;
    assert Repeated(|FIELDS|, DASH) == Dashes();
  }

  /** The default row with its ID set, then its description set. */
  lemma FlagRowSteps(id: JValue, description: string)
    ensures Put(DefaultRow(), "ID", id) == Zip(FIELDS, Dashes()[ID_FIELD := id])
    ensures Put(Zip(FIELDS, Dashes()[ID_FIELD := id]), "Description", JStr(description)) == FlagRow(id, description)
  {
    assert FIELDS[..|FIELDS|] == FIELDS;
    PutField(|FIELDS|, Dashes(), ID_FIELD, id);
    PutField(|FIELDS|, Dashes()[ID_FIELD := id], DESCRIPTION_FIELD, JStr(description));
  }

  // ---------------------------------------------------------------------
  // The metadata dict, changed in place
  // ---------------------------------------------------------------------

  class Metadata {
    var entries: Entries

    constructor (entries: Entries)
      ensures this.entries == entries
    {
      this.entries := entries;
    }

    /** `fill_dict(mdict, id, key, val)`. When the record is missing, the
        handler repeats the same assignment, which raises KeyError again. */
    method FillDict(id: string, key: string, val: JValue) returns (r: Outcome<()>)
      modifies this
      ensures Lookup(old(entries), id).None? ==> r == Raised(KeyError) && entries == old(entries)
      ensures Lookup(old(entries), id).Some? ==>
        r == Ok(()) && entries == Put(old(entries), id, Put(Lookup(old(entries), id).value, key, val))
    {
      var rec := Lookup(entries, id);
      if rec.None? {
        return Raised(KeyError);
      }
      entries := Put(entries, id, Put(rec.value, key, val));
      return Ok(());
    }

    /** `fill_dict_default(mdict, ID)`: the ten fields set to "-" in order. */
    method FillDictDefault(id: string) returns (r: Outcome<()>)
      modifies this
      ensures Lookup(old(entries), id).None? ==> r == Raised(KeyError) && entries == old(entries)
      ensures Lookup(old(entries), id).Some? ==>
        r == Ok(()) && entries == Put(old(entries), id, PutAll(Lookup(old(entries), id).value, FIELDS, DASH))
    {
      var rec := Lookup(entries, id);
      if rec.None? {
        return Raised(KeyError);
      }
      for i := 0 to |FIELDS|
        invariant entries == Put(old(entries), id, PutAll(rec.value, FIELDS[..i], DASH))
      {
        PutLookup(old(entries), id, PutAll(rec.value, FIELDS[..i], DASH), id);
        var _ := FillDict(id, FIELDS[i], DASH);
        PutPut(old(entries), id, PutAll(rec.value, FIELDS[..i], DASH), PutAll(rec.value, FIELDS[..i + 1], DASH));
        assert FIELDS[..i + 1][..i] == FIELDS[..i];
      }
      assert FIELDS[..|FIELDS|] == FIELDS;
      return Ok(());
    }

    /** `get_headers(metadata)`: the keys of the record iterated last. */
    method GetHeaders() returns (headers: seq<string>)
      ensures headers == if entries == [] then [] else Keys(entries[|entries| - 1].1)
    {
      var keys: seq<string> := [];
      for i := 0 to |entries|
        invariant keys == if i == 0 then [] else Keys(entries[i - 1].1)
      {
        keys := Keys(entries[i].1);
      }
      headers := [];
      for j := 0 to |keys|
        invariant headers == keys[..j]
      {
        headers := headers + [keys[j]];
      }
    }

    /** `fill_dict_default`, then the ID and the description: the row of an
        ID whose metadata cannot be shown. */
    method Flag(key: string, id: JValue, description: string)
      modifies this
      requires Lookup(entries, key).Some? && IsPartial(Lookup(entries, key).value)
      ensures entries == Put(old(entries), key, FlagRow(id, description))
    {
      var rec := Lookup(entries, key).value;
      var _ := FillDictDefault(key);
      DefaultsOverPartial(rec);
      PutPut(old(entries), key, rec, DefaultRow());
      PutLookup(old(entries), key, DefaultRow(), key);
      var _ := FillDict(key, "ID", id);
      ghost var withId := Zip(FIELDS, Dashes()[ID_FIELD := id]);
      FlagRowSteps(id, description);
      PutPut(old(entries), key, DefaultRow(), withId);
      PutLookup(old(entries), key, withId, key);
      var _ := FillDict(key, "Description", JStr(description));
      PutPut(old(entries), key, withId, FlagRow(id, description));
    }

    /** The inner `try` of the image branch on a fresh record: the owner
        check, then the ten fields in order, any lookup of which may raise
        after the earlier fields were written. */
    method FillImage(key: string, img: JValue, user: string) returns (failure: Option<Failure>)
      modifies this
      requires Lookup(entries, key) == Some([])
      ensures failure.None? ==>
        ImageRowOf(img, user).Row? && entries == Put(old(entries), key, ImageRowOf(img, user).rec)
      ensures failure.Some? ==>
        ImageRowOf(img, user) == Error(failure.value) &&
        Lookup(entries, key).Some? && IsPartial(Lookup(entries, key).value) &&
        entries == Put(old(entries), key, Lookup(entries, key).value)
    {
      PutLookup(old(entries), key, [], key);
      assert Put(old(entries), key, []) == old(entries) by {
        assert old(entries)[KeyIndex(old(entries), key)] == (key, []);
      }
      var id := Path(img, ID_PATH);
      if id.Stuck? {
        return Some(id.failure);
      }
      var owner := Path(img, OWNER_PATH);
      if owner.Stuck? {
        return Some(owner.failure);
      }
      if owner.v != JStr(user) {
        Flag(key, id.v, NOT_OWNER);
        return None;
      }
      var stuck := FillFields(key, img);
      if stuck.Some? {
        PutLookup(old(entries), key, Zip(FIELDS[..stuck.value], FieldValues(img, stuck.value)), key);
        return Some(Path(img, FIELD_PATHS[stuck.value]).failure);
      }
      return None;
    }

    /** The ten field assignments of the image branch, in order, up to the
        first lookup that raises. */
    method FillFields(key: string, img: JValue) returns (stuck: Option<nat>)
      modifies this
      requires Lookup(entries, key) == Some([])
      ensures stuck == FirstStuck(img, FIELD_PATHS, 0)
      ensures stuck.None? ==> entries == Put(old(entries), key, Zip(FIELDS, FieldValues(img, |FIELDS|)))
      ensures stuck.Some? ==>
        entries == Put(old(entries), key, Zip(FIELDS[..stuck.value], FieldValues(img, stuck.value)))
    {
      assert Put(old(entries), key, []) == old(entries) by {
        assert old(entries)[KeyIndex(old(entries), key)] == (key, []);
      }
      for i := 0 to |FIELDS|
        invariant forall j :: 0 <= j < i ==> Path(img, FIELD_PATHS[j]).At?
        invariant entries == Put(old(entries), key, Zip(FIELDS[..i], FieldValues(img, i)))
      {
        if Path(img, FIELD_PATHS[i]).Stuck? {
          FirstStuckAt(img, FIELD_PATHS, 0, i);
          return Some(i);
        }
        SetField(old(entries), key, img, i);
      }
      assert FIELDS[..|FIELDS|] == FIELDS;
      return None;
    }

    /** `fill_dict(mdict, ID, FIELDS[i], <lookup i>)` once the earlier
        fields are in place. */
    method SetField(ghost base: Entries, key: string, img: JValue, i: nat)
      modifies this
      requires i < |FIELDS| && forall j :: 0 <= j <= i ==> Path(img, FIELD_PATHS[j]).At?
      requires entries == Put(base, key, Zip(FIELDS[..i], FieldValues(img, i)))
      ensures entries == Put(base, key, Zip(FIELDS[..i + 1], FieldValues(img, i + 1)))
    {
      PutLookup(base, key, Zip(FIELDS[..i], FieldValues(img, i)), key);
      var _ := FillDict(key, FIELDS[i], Path(img, FIELD_PATHS[i]).v);
      PutField(i, FieldValues(img, i), i, Path(img, FIELD_PATHS[i]).v);
      assert FieldValues(img, i) + [Path(img, FIELD_PATHS[i]).v] == FieldValues(img, i + 1);
      PutPut(base, key, Zip(FIELDS[..i], FieldValues(img, i)), Zip(FIELDS[..i + 1], FieldValues(img, i + 1)));
    }

    /** One pass of `for ID in imageIDsList`. */
    method FillRow(id: ImageId, user: string, images: map<string, JValue>)
      modifies this
      ensures entries == Put(old(entries), IdText(id), RowFor(id, user, images))
    {
      var key := IdText(id);
      entries := Put(entries, key, []);
      PutLookup(old(entries), key, [], key);
      if id == MISSING_DATASET {
        Flag(key, JNum(-1), NO_DATASET);
      } else if key !in images {
        Flag(key, IdValue(id), NO_IMAGE);
      } else {
        ghost var reset := entries;
        var failure := FillImage(key, images[key], user);
        if failure.Some? {
          ghost var partial := Lookup(entries, key).value;
          Flag(key, IdValue(id), ErrorText(id, failure.value));
          PutPut(reset, key, partial, RowFor(id, user, images));
        }
      }
      PutPut(old(entries), key, [], RowFor(id, user, images));
    }

    /** The first part of `get_core_metadata`: `imageIDsList`. */
    method ExpandIds(idList: seq<string>, idType: string, datasets: map<string, DatasetReply>)
      returns (ids: seq<ImageId>)
      ensures ids == ImageIds(idList, idType, datasets)
    {
      if !IsDatasetType(idType) {
        return seq(|idList|, i requires 0 <= i < |idList| => TextId(idList[i]));
      }
      ids := [];
      for d := 0 to |idList|
        invariant ids == DatasetsImages(idList[..d], datasets)
      {
        assert idList[..d + 1][..d] == idList[..d];
        var more := ListDataset(ReplyFor(datasets, idList[d]));
        ids := ids + more;
      }
      assert idList[..|idList|] == idList;
    }

    /** `get_core_metadata(openBISUser, IdList, idtype, metadata, ...)`:
        false where the source returns None. */
    method GetCoreMetadata(user: string, idList: seq<string>, idType: string,
                           datasets: map<string, DatasetReply>, images: map<string, JValue>)
      returns (filled: bool)
      modifies this
      ensures ImageIds(idList, idType, datasets) == [] ==> !filled && entries == old(entries)
      ensures ImageIds(idList, idType, datasets) != [] ==>
        filled && entries == FillRows(old(entries), ImageIds(idList, idType, datasets), user, images)
    {
      var ids := ExpandIds(idList, idType, datasets);
      if |ids| == 0 {
        return false;
      }
      for j := 0 to |ids|
        invariant FillRows(entries, ids[j..], user, images) == FillRows(old(entries), ids, user, images)
      {
        assert ids[j..][1..] == ids[j + 1..];
        FillRow(ids[j], user, images);
      }
      return true;
    }
  }

  /** All lookups before `j` succeed and lookup `j` fails. */
  lemma {:induction false} FirstStuckAt(img: JValue, paths: seq<seq<string>>, i: nat, j: nat)
    requires i <= j < |paths|
    requires forall k :: i <= k < j ==> Path(img, paths[k]).At?
    requires Path(img, paths[j]).Stuck?
    ensures FirstStuck(img, paths, i) == Some(j)
    decreases j - i
  {
    if i < j {
      FirstStuckAt(img, paths, i + 1, j);
    }
  }

  /** The body of `for datasetId in IdList` for one dataset. */
  method ListDataset(reply: Option<DatasetReply>) returns (ids: seq<ImageId>)
    ensures ids == DatasetImages(reply)
  {
    if reply.None? || reply.value.totalCount == 0 {
      return [MISSING_DATASET];
    }
    var r := reply.value;
    ids := [];
    var i: nat := 0;
    while i < r.totalCount
      invariant ids + CollectFrom(r.ids, i, r.totalCount) == CollectFrom(r.ids, 0, r.totalCount)
      decreases r.totalCount - i
    {
      if i >= |r.ids| || r.ids[i].None? {
        // `dsjson['data'][i]['@id']` raises; the handler appends -2
        return ids + [MISSING_DATASET];
      }
      ids := ids + [IntId(r.ids[i].value)];
      i := i + 1;
    }
  }
}
