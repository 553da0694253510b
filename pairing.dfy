/** Resolving pairing ids and parameter ids to the datapoint and parameter
    numbers of one channel (custom_components/freeathome/fah/pfreeathome.py,
    get_attribute and the get_*_by_*_id helpers). */
module Pairing {
  import opened Wrappers
  import opened PyValue
  import opened ConfigXml
  import PyDict

  /** get_attribute: the text of the first `attribute` child named `name`
      (None when that element has no text), or '' when there is none. */
  function GetAttribute(n: Node, name: string): (r: Option<string>)
    ensures (forall a :: a in FindAll(n, "attribute") ==> Get(a, "name") != Some(name)) ==> r == Some("")
    ensures (exists a :: a in FindAll(n, "attribute") && Get(a, "name") == Some(name)) ==>
              r == FirstWith(FindAll(n, "attribute"), "name", name).value.text
  {
    var a := FirstWith(FindAll(n, "attribute"), "name", name);
    if a.Some? then a.value.text else Some("")
  }

  /** No element of `nodes` before position k fails to parse or carries
      the id. */
  ghost predicate OtherIdsBefore(nodes: seq<Node>, idAttr: string, id: int, k: int)
    requires 0 <= k <= |nodes|
  {
    forall j :: 0 <= j < k ==> IntHex(Get(nodes[j], idAttr)).Ok? && IntHex(Get(nodes[j], idAttr)).value != id
  }

  /** The loop of get_datapoint_by_pairing_id over the children: the 'i' of
      the first element whose id attribute parses to `id` (None when it has
      none), None when no element carries it; int(..., 16) raises at the
      first id that is not hexadecimal. */
  function ScanById(nodes: seq<Node>, idAttr: string, id: int): (r: Result<Option<string>, PyError>)
    ensures r.Ok? && (r.value.Some? || !OtherIdsBefore(nodes, idAttr, id, |nodes|)) ==>
              exists k :: 0 <= k < |nodes| && OtherIdsBefore(nodes, idAttr, id, k)
                          && IntHex(Get(nodes[k], idAttr)) == Ok(id) && r.value == Get(nodes[k], "i")
    ensures r.Err? ==> exists k :: 0 <= k < |nodes| && OtherIdsBefore(nodes, idAttr, id, k)
                                  && IntHex(Get(nodes[k], idAttr)) == Err(r.error)
  {
    if nodes == [] then Ok(None)
    else
      var p := IntHex(Get(nodes[0], idAttr));
      if p.Err? then Err(p.error)
      else if p.value == id then Ok(Get(nodes[0], "i"))
      else
        var r := ScanById(nodes[1..], idAttr, id);
        assert forall k :: 0 <= k <= |nodes[1..]| && OtherIdsBefore(nodes[1..], idAttr, id, k) ==>
                 OtherIdsBefore(nodes, idAttr, id, k + 1);
        assert OtherIdsBefore(nodes, idAttr, id, |nodes|) ==> OtherIdsBefore(nodes[1..], idAttr, id, |nodes[1..]|);
        r
  }

  /** Where a resolution looks: the child `group` ("inputs", "outputs" or
      "parameters"), its elements `tag` and their id attribute. */
  datatype Lookup = Lookup(group: string, tag: string, idAttr: string)

  /** get_datapoint_by_pairing_id and get_parameter_by_parameter_id: a
      channel without the group raises an AttributeError. */
  function GetById(channel: Node, l: Lookup, id: int): (r: Result<Option<string>, PyError>)
    ensures Find(channel, l.group).None? ==> r == Err(AttributeError)
    ensures Find(channel, l.group).Some? ==> r == ScanById(FindAll(Find(channel, l.group).value, l.tag), l.idAttr, id)
  {
    var g := Find(channel, l.group);
    if g.None? then Err(AttributeError) else ScanById(FindAll(g.value, l.tag), l.idAttr, id)
  }

  /** The id resolves to a number, without raising. */
  predicate Resolved(channel: Node, l: Lookup, id: int)
  {
    GetById(channel, l, id).Ok? && GetById(channel, l, id).value.Some?
  }

  function DatapointLookup(group: string): Lookup { Lookup(group, "dataPoint", "pairingId") }

  function ParameterLookup(group: string): Lookup { Lookup(group, "parameter", "parameterId") }

  /** A class's request: the ids to resolve, group by group, in the order
      of its pairing_ids or parameter_ids dict. */
  type Request = seq<(string, seq<int>)>

  /** The (group, id) pairs of a request, in the order they are tried. */
  function Pairs(req: Request): (r: seq<(string, int)>)
    ensures forall p :: p in r <==> exists g :: g in req && p.0 == g.0 && p.1 in g.1
  {
    if req == [] then []
    else
      var r := Pairs(req[1..]);
      var own := seq(|req[0].1|, i requires 0 <= i < |req[0].1| => (req[0].0, req[0].1[i]));
      assert forall p :: p in own <==> p.0 == req[0].0 && p.1 in req[0].1 by {
        forall p: (string, int) | p.0 == req[0].0 && p.1 in req[0].1 ensures p in own {
          var i :| 0 <= i < |req[0].1| && req[0].1[i] == p.1;
          assert own[i] == p;
        }
      }
      own + r
  }

  /** Every entry of d is a number that one of the pairs resolved to. */
  ghost predicate EntriesResolved(channel: Node, tag: string, idAttr: string, pairs: seq<(string, int)>, d: PyDict.Dict<int, string>)
  {
    forall e :: e in d ==> exists p :: p in pairs && p.1 == e.0 && GetById(channel, Lookup(p.0, tag, idAttr), p.1) == Ok(Some(e.1))
  }

  /** Every pair that resolves has its id in d. */
  ghost predicate ResolvedKept(channel: Node, tag: string, idAttr: string, pairs: seq<(string, int)>, d: PyDict.Dict<int, string>)
  {
    forall p :: p in pairs && Resolved(channel, Lookup(p.0, tag, idAttr), p.1) ==> p.1 in PyDict.Keys(d)
  }

  /** The loops of get_datapoints_by_pairing_ids and
      get_parameters_by_parameter_ids: each id that resolves is stored under
      that id, a later one replacing an earlier, and nothing else is; the
      first lookup that raises ends them. */
  function ResolvePairs(channel: Node, tag: string, idAttr: string, pairs: seq<(string, int)>): (r: Result<PyDict.Dict<int, string>, PyError>)
    ensures r.Ok? ==> PyDict.DistinctKeys(r.value)
    ensures r.Ok? ==> EntriesResolved(channel, tag, idAttr, pairs, r.value)
    ensures r.Ok? ==> ResolvedKept(channel, tag, idAttr, pairs, r.value)
    ensures r.Err? ==> exists p :: p in pairs && GetById(channel, Lookup(p.0, tag, idAttr), p.1) == Err(r.error)
    decreases |pairs|
  {
    if pairs == [] then Ok([])
    else
      var front := pairs[..|pairs| - 1];
      var last := pairs[|pairs| - 1];
      var rf := ResolvePairs(channel, tag, idAttr, front);
      if rf.Err? then
        assert front[..] <= pairs;
        Err(rf.error)
      else
        var dp := GetById(channel, Lookup(last.0, tag, idAttr), last.1);
        if dp.Err? then Err(dp.error)
        else
          var d := if dp.value.None? then rf.value else PyDict.Put(rf.value, last.1, dp.value.value);
          ResolveStep(channel, tag, idAttr, pairs, rf.value, d);
          Ok(d)
  }

  /** One more pair: the properties of the resolved dict carry over. */
  lemma ResolveStep(channel: Node, tag: string, idAttr: string, pairs: seq<(string, int)>, d0: PyDict.Dict<int, string>,
                    d: PyDict.Dict<int, string>)
    requires pairs != []
    requires var last := pairs[|pairs| - 1]; var dp := GetById(channel, Lookup(last.0, tag, idAttr), last.1);
             dp.Ok? && d == if dp.value.None? then d0 else PyDict.Put(d0, last.1, dp.value.value)
    requires PyDict.DistinctKeys(d0)
    requires EntriesResolved(channel, tag, idAttr, pairs[..|pairs| - 1], d0)
    requires ResolvedKept(channel, tag, idAttr, pairs[..|pairs| - 1], d0)
    ensures PyDict.DistinctKeys(d)
    ensures EntriesResolved(channel, tag, idAttr, pairs, d)
    ensures ResolvedKept(channel, tag, idAttr, pairs, d)
  {
    var front := pairs[..|pairs| - 1];
    var last := pairs[|pairs| - 1];
    var dp := GetById(channel, Lookup(last.0, tag, idAttr), last.1);
    assert forall p :: p in front ==> p in pairs;
    assert forall p :: p in pairs ==> p in front || p == last;
    if dp.value.Some? {
      PyDict.PutDistinct(d0, last.1, dp.value.value);
      assert forall k :: k in PyDict.Keys(d0) ==> k in PyDict.Keys(d);
      forall e | e in d
        ensures exists p :: p in pairs && p.1 == e.0 && GetById(channel, Lookup(p.0, tag, idAttr), p.1) == Ok(Some(e.1))
      {
        PutEntries(d0, last.1, dp.value.value, e);
        if e != (last.1, dp.value.value) {
          var p :| p in front && p.1 == e.0 && GetById(channel, Lookup(p.0, tag, idAttr), p.1) == Ok(Some(e.1));
        }
      }
    }
  }

  /** Every entry of d[k] = v is v under k or an entry of d. */
  lemma {:induction false} PutEntries<K, V>(d: PyDict.Dict<K, V>, k: K, v: V, e: (K, V))
    requires e in PyDict.Put(d, k, v)
    ensures e in d || e == (k, v)
  {
    if d != [] && d[0].0 != k {
      if e != d[0] {
        assert e in PyDict.Put(d[1..], k, v);
        PutEntries(d[1..], k, v, e);
      }
    }
  }

  /** get_datapoints_by_pairing_ids: each pairing id of the request that
      resolves in its group is stored under that id with the datapoint it
      names, and nothing else is; a lookup that raises ends it. */
  function GetDatapointsByPairingIds(channel: Node, req: Request): (r: Result<PyDict.Dict<int, string>, PyError>)
    ensures r.Ok? ==> PyDict.DistinctKeys(r.value)
    ensures r.Ok? ==> forall e :: e in r.value ==>
              exists g :: g in req && e.0 in g.1 && GetById(channel, DatapointLookup(g.0), e.0) == Ok(Some(e.1))
    ensures r.Ok? ==> forall g, id :: g in req && id in g.1 && Resolved(channel, DatapointLookup(g.0), id) ==>
              id in PyDict.Keys(r.value)
    ensures r.Err? ==> exists g, id :: g in req && id in g.1 && GetById(channel, DatapointLookup(g.0), id) == Err(r.error)
  {
    var pairs := Pairs(req);
    assert forall g, id :: g in req && id in g.1 ==> (g.0, id) in pairs;
    ResolvePairs(channel, "dataPoint", "pairingId", pairs)
  }

  /** get_parameters_by_parameter_ids: the same over the parameters and
      their parameter ids. */
  function GetParametersByParameterIds(channel: Node, req: Request): (r: Result<PyDict.Dict<int, string>, PyError>)
    ensures r.Ok? ==> PyDict.DistinctKeys(r.value)
    ensures r.Ok? ==> forall e :: e in r.value ==>
              exists g :: g in req && e.0 in g.1 && GetById(channel, ParameterLookup(g.0), e.0) == Ok(Some(e.1))
    ensures r.Ok? ==> forall g, id :: g in req && id in g.1 && Resolved(channel, ParameterLookup(g.0), id) ==>
              id in PyDict.Keys(r.value)
    ensures r.Err? ==> exists g, id :: g in req && id in g.1 && GetById(channel, ParameterLookup(g.0), id) == Err(r.error)
  {
    var pairs := Pairs(req);
    assert forall g, id :: g in req && id in g.1 ==> (g.0, id) in pairs;
    ResolvePairs(channel, "parameter", "parameterId", pairs)
  }
}
