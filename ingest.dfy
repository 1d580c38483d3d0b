/** The dropbox side around the reader: `ROCrateJSONReader.parse_profile`,
    the checks `addEntryObj` runs before it touches openBIS, and the file
    extension check of `parseFile`. */
module Ingest {

  import opened Strings
  import opened Json
  import opened Receiver

  const OMERO_AUTHOR := "OMERO Web Server OS"

  // ---------------------------------------------------------------------
  // ROCrateJSONReader
  // ---------------------------------------------------------------------

  /** The reader object; `rocrate` is what `load_rocrate` parsed from
      `ro-crate-metadata.json`. */
  class ROCrateJSONReader {
    var rocrate: JValue
    var err: string
    var content: Option<Content>

    /** The state `__init__` has reached once the file is loaded. */
    constructor Loaded(rocrate: JValue)
      ensures this.rocrate == rocrate && err == "" && content == None
    {
      this.rocrate := rocrate;
      err := "";
      content := None;
    }

    /** `parse_profile(profile)`: a null crate raises; the 'openbis' profile
        wraps the crate and copies the wrapper's error; every other profile
        (also 'basic') sets "Unknown profile" and returns None. */
    method ParseProfile(profile: string) returns (r: Outcome<Option<Content>>)
      modifies this`err
      ensures rocrate == JNull ==> r == Raised(NoRoCrateLoaded) && err == old(err)
      ensures rocrate != JNull && profile == "openbis" ==>
        match ContentOf(rocrate)
        case Ok(c) => r == Ok(Some(c)) && err == c.err
        case Raised(e) => r == Raised(e) && err == old(err)
      ensures rocrate != JNull && profile != "openbis" ==>
        r == Ok(None) && err == "Unknown profile"
    {
      if rocrate == JNull {
        return Raised(NoRoCrateLoaded);
      }
      if profile == "openbis" {
        var result := NewContentWrapper(rocrate);
        if result.Raised? {
          return Raised(result.error);
        }
        err := result.value.err;
        return Ok(Some(result.value));
      } else {
        err := "Unknown profile";
      }
      return Ok(None);
    }
  }

  /** `ROCrateJSONReader(json_file)` once the JSON is loaded: construct the
      reader and set `content` to `parse_profile('openbis')`, or raise. */
  method OpenReader(rocrate: JValue) returns (r: Outcome<ROCrateJSONReader>)
    ensures rocrate == JNull ==> r == Raised(NoRoCrateLoaded)
    ensures rocrate != JNull && ContentOf(rocrate).Raised? ==> r == Raised(ContentOf(rocrate).error)
    ensures rocrate != JNull && ContentOf(rocrate).Ok? ==>
      r.Ok? && fresh(r.value) && r.value.rocrate == rocrate &&
      r.value.content == Some(ContentOf(rocrate).value) &&
      r.value.err == ContentOf(rocrate).value.err
  {
    var reader := new ROCrateJSONReader.Loaded(rocrate);
    var parsed := reader.ParseProfile("openbis");
    if parsed.Raised? {
      return Raised(parsed.error);
    }
    reader.content := parsed.value;
    return Ok(reader);
  }

  // ---------------------------------------------------------------------
  // addEntryObj: the checks before the openBIS calls
  // ---------------------------------------------------------------------

  /** How the validation prefix of `addEntryObj` ends: `(False, message)`,
      or on to the parent lookup with the parsed permID and user name. */
  datatype EntryCheck = Rejected(message: string) | Accepted(permId: string, userName: string)

  /** The first lines of `addEntryObj`. The log lines concatenate permID,
      user name and publisher to strings, so a truthy non-string permID or
      user name, or a publisher that is not a string (None when the
      software name was not resolved), raises TypeError before the
      publisher is compared. */
  function AddEntryChecks(content: Content): (r: Outcome<EntryCheck>)
    ensures r == Ok(Rejected("ERROR parsing userName")) <==> !Truthy(content.user)
    ensures r == Ok(Rejected("ERROR parsing permID")) <==>
      Truthy(content.user) && !Truthy(content.rootId)
    ensures r.Raised? <==>
      Truthy(content.user) && Truthy(content.rootId) &&
      !(content.rootId.JStr? && content.user.JStr? && content.softwareName.JStr?)
    ensures r == Ok(Rejected("Incoming file is not a valid OMERO *.eln.")) <==>
      Truthy(content.user) && content.user.JStr? && Truthy(content.rootId) && content.rootId.JStr? &&
      content.softwareName.JStr? && content.softwareName.s != OMERO_AUTHOR
    ensures r.Ok? && r.value.Accepted? <==>
      content.user.JStr? && content.user.s != "" && content.rootId.JStr? && content.rootId.s != "" &&
      content.softwareName == JStr(OMERO_AUTHOR)
    ensures r.Ok? && r.value.Accepted? ==>
      r.value == Accepted(content.rootId.s, content.user.s)
  {
    if !Truthy(content.user) then Ok(Rejected("ERROR parsing userName"))
    else if !Truthy(content.rootId) then Ok(Rejected("ERROR parsing permID"))
    else if !content.rootId.JStr? || !content.user.JStr? || !content.softwareName.JStr? then
      Raised(TypeError)
    else if content.softwareName.s != OMERO_AUTHOR then
      Ok(Rejected("Incoming file is not a valid OMERO *.eln."))
    else Ok(Accepted(content.rootId.s, content.user.s))
  }

  // ---------------------------------------------------------------------
  // parseFile: only *.eln files are processed
  // ---------------------------------------------------------------------

  /** Index of the last occurrence of `c` in `s`, or -1. */
  function LastIndexOf(s: string, c: char): (i: int)
    ensures -1 <= i < |s|
    ensures i >= 0 ==> s[i] == c
    ensures forall j :: i < j < |s| ==> s[j] != c
  {
    if s == [] then -1
    else if s[|s| - 1] == c then |s| - 1
    else LastIndexOf(s[..|s| - 1], c)
  }

  /** Some character in `s[from..to]` is not a dot. */
  predicate HasNonDot(s: string, from: int, to: int)
    requires 0 <= from <= to <= |s|
  {
    exists k :: from <= k < to && s[k] != '.'
  }

  /** `os.path.splitext(path)[1]` on POSIX paths: the text from the last dot
      of the last path component, when that dot is preceded in the
      component by some character other than a dot; else "". */
  function Extension(path: string): (ext: string)
    ensures ext == "" || (ext[0] == '.' && IsSuffix(ext, path))
  {
    var slash := LastIndexOf(path, '/');
    var dot := LastIndexOf(path, '.');
    if dot > slash && HasNonDot(path, slash + 1, dot) then path[dot..] else ""
  }

  predicate IsSuffix(t: string, s: string)
  {
    |t| <= |s| && s[|s| - |t|..] == t
  }

  const NOT_ELN := "No valid file format for this dropbox (required: *.eln)."

  /** The first check of `parseFile`: the error it returns, or None to go on. */
  function CheckExtension(path: string): Option<string>
  {
    if AsciiLower(Extension(path)) != ".eln" then Some(NOT_ELN) else None
  }

  /** A path ends in ".eln" in any letter case, and its file name has a
      character other than a dot before that suffix. */
  predicate LooksLikeEln(path: string)
  {
    |path| >= 4 && AsciiLower(path[|path| - 4..]) == ".eln" &&
    exists k :: 0 <= k < |path| - 4 && path[k] != '.' && path[k] != '/' &&
      forall j :: k < j < |path| - 4 ==> path[j] != '/'
  }

  /** Whatever lower-cases to ".eln" is a dot and three letters. */
  lemma LowerElnShape(x: string)
    requires AsciiLower(x) == ".eln"
    ensures |x| == 4 && x[0] == '.'
    ensures forall j :: 1 <= j < 4 ==> x[j] != '.' && x[j] != '/'
  {
    assert AsciiLower(x)[0] == '.';
    forall j | 1 <= j < 4 ensures x[j] != '.' && x[j] != '/' {
      assert AsciiLower(x)[j] != '.' && AsciiLower(x)[j] != '/';
    }
  }

  /** Every path `parseFile` lets through looks like an .eln file. */
  lemma CheckExtensionSound(path: string)
    requires CheckExtension(path) == None
    ensures LooksLikeEln(path)
  {
    var slash := LastIndexOf(path, '/');
    var dot := LastIndexOf(path, '.');
    var ext := Extension(path);
    LowerElnShape(ext);
    assert dot > slash && HasNonDot(path, slash + 1, dot) && ext == path[dot..];
    assert dot == |path| - 4;
    var k :| slash + 1 <= k < dot && path[k] != '.';
    assert path[k] != '/';
  }

  /** The last occurrence is pinned down by an occurrence with none after it. */
  lemma LastIndexOfAt(s: string, c: char, i: int)
    requires 0 <= i < |s| && s[i] == c
    requires forall j :: i < j < |s| ==> s[j] != c
    ensures LastIndexOf(s, c) == i
  {
  }

  /** A path ending in ".eln" in any letter case has its last dot four
      characters from the end, and no slash after it. */
  lemma ElnSuffix(path: string)
    requires |path| >= 4 && AsciiLower(path[|path| - 4..]) == ".eln"
    ensures LastIndexOf(path, '.') == |path| - 4
    ensures forall j :: |path| - 4 <= j < |path| ==> path[j] != '/'
  {
    var n := |path|;
    var tail := path[n - 4..];
    LowerElnShape(tail);
    forall j | n - 4 < j < n ensures path[j] != '.' && path[j] != '/' {
      assert path[j] == tail[j - (n - 4)];
    }
    assert path[n - 4] == tail[0];
    LastIndexOfAt(path, '.', n - 4);
  }

  /** Every path that looks like an .eln file is let through. */
  lemma CheckExtensionComplete(path: string)
    requires LooksLikeEln(path)
    ensures CheckExtension(path) == None
  {
    var n := |path|;
    var k :| 0 <= k < n - 4 && path[k] != '.' && path[k] != '/' &&
      forall j :: k < j < n - 4 ==> path[j] != '/';
    ElnSuffix(path);
    var slash := LastIndexOf(path, '/');
    assert slash < k;
    assert HasNonDot(path, slash + 1, n - 4);
  }
}
