/** The two node lookups over an RO-Crate `@graph`
    (`find_object_by_id`, `find_object_by_type`): linear scans in document
    order that read every item with `item.get(...)`, so an item that is not a
    dict raises AttributeError when the scan reaches it. */
module Graph {

  import opened Json

  /** The items the scans iterate over: `data.get('@graph', [])`.
      A missing `@graph` is an empty list. A string or a dict is iterated too:
      an empty one yields nothing, a non-empty one yields a string first, whose
      `.get` raises AttributeError, so the model raises straight away. Iterating
      None, a number or a boolean raises TypeError; `.get` on a document that is
      not a dict raises AttributeError. */
  function GraphItems(data: JValue): (r: Outcome<seq<JValue>>)
    ensures data.JObj? && "@graph" !in data.fields ==> r == Ok([])
    ensures data.JObj? && "@graph" in data.fields && data.fields["@graph"].JArr? ==>
      r == Ok(data.fields["@graph"].items)
    ensures !data.JObj? ==> r == Raised(AttributeError)
  {
    if !data.JObj? then Raised(AttributeError)
    else if "@graph" !in data.fields then Ok([])
    else match data.fields["@graph"]
      case JArr(items) => Ok(items)
      case JStr(s) => if s == "" then Ok([]) else Raised(AttributeError)
      case JObj(m) => if m == map[] then Ok([]) else Raised(AttributeError)
      case _ => Raised(TypeError)
  }

  /** `item.get('@id') == target` for a dict item. */
  predicate IsIdMatch(item: JValue, target: JValue)
  {
    item.JObj? && Get(item.fields, "@id") == target
  }

  /** `item.get('@type') == target` for a dict item. */
  predicate IsTypeMatch(item: JValue, target: string)
  {
    item.JObj? && Get(item.fields, "@type") == JStr(target)
  }

  /** Items before position `i` are dicts that do not carry the target id. */
  predicate PassedBefore(items: seq<JValue>, target: JValue, i: int)
    requires 0 <= i <= |items|
  {
    forall j :: 0 <= j < i ==> items[j].JObj? && !IsIdMatch(items[j], target)
  }

  /** The loop of `find_object_by_id`: the first dict whose `@id` equals the
      target, None when the scan ends, AttributeError at the first non-dict
      reached before a match. */
  function ScanById(items: seq<JValue>, target: JValue): (r: Outcome<Option<Node>>)
    ensures r == Ok(None) <==> PassedBefore(items, target, |items|)
    ensures r.Ok? && r.value.Some? ==>
      exists i :: 0 <= i < |items| && items[i] == JObj(r.value.value) &&
        IsIdMatch(items[i], target) && PassedBefore(items, target, i)
    ensures r.Raised? ==>
      r.error == AttributeError &&
      exists i :: 0 <= i < |items| && !items[i].JObj? && PassedBefore(items, target, i)
  {
    if items == [] then Ok(None)
    else if !items[0].JObj? then Raised(AttributeError)
    else if Get(items[0].fields, "@id") == target then Ok(Some(items[0].fields))
    else
      var r := ScanById(items[1..], target);
      assert forall j :: 1 <= j <= |items| ==> items[1..][..j - 1] == items[1..j];
      assert r == Ok(None) ==> PassedBefore(items, target, |items|) by {
        if r == Ok(None) {
          forall j | 0 <= j < |items| ensures items[j].JObj? && !IsIdMatch(items[j], target) {
            if j > 0 { assert items[j] == items[1..][j - 1]; }
          }
        }
      }
      assert r.Ok? && r.value.Some? ==>
        exists i :: 0 <= i < |items| && items[i] == JObj(r.value.value) &&
          IsIdMatch(items[i], target) && PassedBefore(items, target, i) by {
        if r.Ok? && r.value.Some? {
          var i :| 0 <= i < |items[1..]| && items[1..][i] == JObj(r.value.value) &&
            IsIdMatch(items[1..][i], target) && PassedBefore(items[1..], target, i);
          assert items[i + 1] == items[1..][i];
          forall j | 0 <= j < i + 1 ensures items[j].JObj? && !IsIdMatch(items[j], target) {
            if j > 0 { assert items[j] == items[1..][j - 1]; }
          }
        }
      }
      assert r.Raised? ==>
        exists i :: 0 <= i < |items| && !items[i].JObj? && PassedBefore(items, target, i) by {
        if r.Raised? {
          var i :| 0 <= i < |items[1..]| && !items[1..][i].JObj? && PassedBefore(items[1..], target, i);
          assert items[i + 1] == items[1..][i];
          forall j | 0 <= j < i + 1 ensures items[j].JObj? && !IsIdMatch(items[j], target) {
            if j > 0 { assert items[j] == items[1..][j - 1]; }
          }
        }
      }
      assert !PassedBefore(items[1..], target, |items[1..]|) ==> !PassedBefore(items, target, |items|) by {
        if !PassedBefore(items[1..], target, |items[1..]|) {
          var j :| 0 <= j < |items[1..]| && !(items[1..][j].JObj? && !IsIdMatch(items[1..][j], target));
          assert items[j + 1] == items[1..][j];
        }
      }
      r
  }

  /** `find_object_by_id(data, target_id)` */
  function FindObjectById(data: JValue, target: JValue): Outcome<Option<Node>>
  {
    var items :- GraphItems(data);
    ScanById(items, target)
  }

  /** A dict with the target id preceded only by dicts without it is what the
      lookup returns. */
  lemma {:induction false} ScanByIdFindsFirst(items: seq<JValue>, target: JValue, i: nat)
    requires i < |items| && IsIdMatch(items[i], target)
    requires PassedBefore(items, target, i)
    ensures ScanById(items, target) == Ok(Some(items[i].fields))
  {
    if i > 0 {
      assert PassedBefore(items[1..], target, i - 1) by {
        forall j | 0 <= j < i - 1 ensures items[1..][j].JObj? && !IsIdMatch(items[1..][j], target) {
          assert items[1..][j] == items[j + 1];
        }
      }
      ScanByIdFindsFirst(items[1..], target, i - 1);
    }
  }

  /** A document without `@graph` behaves as an empty graph. */
  lemma AbsentGraphIsEmpty(data: JValue, target: JValue)
    requires data.JObj? && "@graph" !in data.fields
    ensures FindObjectById(data, target) == Ok(None)
  {
  }

  /** Membership of the found nodes as an ordered sub-list of the items. */
  predicate IsSubsequence(xs: seq<JValue>, ys: seq<JValue>)
    decreases |ys|
  {
    xs == [] || (ys != [] &&
      ((xs[0] == ys[0] && IsSubsequence(xs[1..], ys[1..])) || IsSubsequence(xs, ys[1..])))
  }

  /** The nodes, each wrapped back as a JSON object. */
  function AsValues(nodes: seq<Node>): (vs: seq<JValue>)
    ensures |vs| == |nodes|
    ensures forall k :: 0 <= k < |nodes| ==> vs[k] == JObj(nodes[k])
  {
    seq(|nodes|, k requires 0 <= k < |nodes| => JObj(nodes[k]))
  }

  /** How many items are dicts of the target type. */
  function TypeMatchCount(items: seq<JValue>, target: string): nat
  {
    if items == [] then 0
    else (if IsTypeMatch(items[0], target) then 1 else 0) + TypeMatchCount(items[1..], target)
  }

  /** The loop of `find_object_by_type`: every item is read, so any non-dict
      raises; otherwise the result holds exactly the items of the target type,
      in document order. */
  function ScanByType(items: seq<JValue>, target: string): (r: Outcome<seq<Node>>)
    ensures r.Ok? <==> forall j :: 0 <= j < |items| ==> items[j].JObj?
    ensures r.Raised? ==> r.error == AttributeError
    ensures r.Ok? ==> forall k :: 0 <= k < |r.value| ==> Get(r.value[k], "@type") == JStr(target)
    ensures r.Ok? ==> IsSubsequence(AsValues(r.value), items)
    ensures r.Ok? ==> |r.value| == TypeMatchCount(items, target)
  {
    if items == [] then Ok([])
    else if !items[0].JObj? then Raised(AttributeError)
    else
      var rest := ScanByType(items[1..], target);
      assert rest.Ok? <==> forall j :: 0 <= j < |items| ==> items[j].JObj? by {
        if rest.Ok? {
          forall j | 0 <= j < |items| ensures items[j].JObj? {
            if j > 0 { assert items[j] == items[1..][j - 1]; }
          }
        }
        if forall j :: 0 <= j < |items| ==> items[j].JObj? {
          forall j | 0 <= j < |items[1..]| ensures items[1..][j].JObj? {
            assert items[1..][j] == items[j + 1];
          }
        }
      }
      if rest.Raised? then rest
      else if Get(items[0].fields, "@type") == JStr(target) then
        var r := [items[0].fields] + rest.value;
        assert AsValues(r)[0] == items[0] && AsValues(r)[1..] == AsValues(rest.value);
        Ok(r)
      else
        rest
  }

  /** Dicts of which only the one at `i` has the target type give that one
      node. */
  lemma {:induction false} ScanByTypeSingle(items: seq<JValue>, target: string, i: nat)
    requires i < |items| && IsTypeMatch(items[i], target)
    requires forall j :: 0 <= j < |items| && j != i ==> items[j].JObj? && !IsTypeMatch(items[j], target)
    ensures ScanByType(items, target) == Ok([items[i].fields])
  {
    forall j | 0 <= j < |items[1..]| && j != i - 1
      ensures items[1..][j].JObj? && !IsTypeMatch(items[1..][j], target)
    {
      assert items[1..][j] == items[j + 1];
    }
    if i == 0 {
      ScanByTypeNone(items[1..], target);
      assert [items[0].fields] + [] == [items[0].fields];
    } else {
      assert items[1..][i - 1] == items[i];
      ScanByTypeSingle(items[1..], target, i - 1);
    }
  }

  /** Dicts none of which has the target type give no node. */
  lemma {:induction false} ScanByTypeNone(items: seq<JValue>, target: string)
    requires forall j :: 0 <= j < |items| ==> items[j].JObj? && !IsTypeMatch(items[j], target)
    ensures ScanByType(items, target) == Ok([])
  {
    if items != [] {
      forall j | 0 <= j < |items[1..]| ensures items[1..][j].JObj? && !IsTypeMatch(items[1..][j], target) {
        assert items[1..][j] == items[j + 1];
      }
      ScanByTypeNone(items[1..], target);
    }
  }

  /** `find_object_by_type(data, target_type)` */
  function FindObjectByType(data: JValue, target: string): Outcome<seq<Node>>
  {
    var items :- GraphItems(data);
    ScanByType(items, target)
  }
}
