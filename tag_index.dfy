/** The continuations of the tag-index executors: what each one does with
    the metadata service's response. A continuation returns the operator's
    status and, for the listing operators, the table it publishes. */
module TagIndex {
  import opened Values
  import opened Statuses
  import opened StringOrder

  /** An index as the metadata service lists it. */
  datatype IndexItem = IndexItem(indexId: int, indexName: string, schemaName: string, fields: seq<string>)

  /** The build status of one index. */
  datatype IndexStatus = IndexStatus(name: string, status: string)

  /** Creating an index succeeds exactly when the service returned an index
      id, whichever id it was; a failure is passed on unchanged. */
  function OnCreateTagIndex(resp: StatusOr<int>): (s: Status)
    ensures s.Ok? <==> resp.Returned?
    ensures resp.Failed? ==> s == resp.status
  {
    if resp.Failed? then resp.status else Ok
  }

  /** Dropping an index succeeds exactly when the service answered, whatever
      boolean it answered; a failure is passed on unchanged. */
  function OnDropTagIndex(resp: StatusOr<bool>): (s: Status)
    ensures s.Ok? <==> resp.Returned?
    ensures resp.Failed? ==> s == resp.status
  {
    if resp.Failed? then resp.status else Ok
  }

  /** The ordered set of the names of `items`. */
  function IndexNameSet(items: seq<IndexItem>): (names: seq<string>)
    ensures StrictlySorted(names)
    decreases |items|
  {
    if items == [] then []
    else Insert(IndexNameSet(items[..|items| - 1]), items[|items| - 1].indexName)
  }

  /** `names` lists each index name of `items` once, in strictly ascending order. */
  ghost predicate ListsIndexNames(names: seq<string>, items: seq<IndexItem>) {
    && StrictlySorted(names)
    && forall n :: n in names <==> exists i :: 0 <= i < |items| && items[i].indexName == n
  }

  /** The ordered name set holds exactly the listed names, each once, and is
      the only strictly ascending listing of them. */
  lemma {:induction false} IndexNameSetSpec(items: seq<IndexItem>)
    ensures ListsIndexNames(IndexNameSet(items), items)
    ensures Distinct(IndexNameSet(items))
    ensures forall other :: ListsIndexNames(other, items) ==> other == IndexNameSet(items)
    decreases |items|
  {
    var names := IndexNameSet(items);
    if items != [] {
      var init := items[..|items| - 1];
      IndexNameSetSpec(init);
      forall n ensures n in names <==> exists i :: 0 <= i < |items| && items[i].indexName == n {
        if exists i :: 0 <= i < |items| && items[i].indexName == n {
          var i :| 0 <= i < |items| && items[i].indexName == n;
          if i < |items| - 1 {
            assert init[i] == items[i];
          }
        }
        if exists i :: 0 <= i < |init| && init[i].indexName == n {
          var i :| 0 <= i < |init| && init[i].indexName == n;
          assert items[i] == init[i];
        }
      }
    }
    StrictlySortedDistinct(names);
    forall other | ListsIndexNames(other, items) ensures other == names {
      StrictlySortedUnique(other, names);
    }
  }

  /** One "Names" row per name. */
  function NameRows(names: seq<string>): (rows: seq<Row>)
    ensures |rows| == |names|
    ensures forall k :: 0 <= k < |names| ==> rows[k] == Row([Str(names[k])])
  {
    seq(|names|, k requires 0 <= k < |names| => Row([Str(names[k])]))
  }

  /** SHOW TAG INDEXES: the names of the listed indexes, sorted and without
      duplicates, as the one-column table "Names". */
  method ShowTagIndexes(resp: StatusOr<seq<IndexItem>>) returns (status: Status, result: Option<DataSet>)
    ensures resp.Failed? ==> status == resp.status && result == None
    ensures resp.Returned? ==> status == Ok && result == Some(DataSet(["Names"], NameRows(IndexNameSet(resp.value))))
  {
    if resp.Failed? {
      return resp.status, None;
    }
    var tagIndexItems := resp.value;
    var dataSet := DataSet(["Names"], []);
    var orderTagIndexNames: seq<string> := [];
    for i := 0 to |tagIndexItems|
      invariant orderTagIndexNames == IndexNameSet(tagIndexItems[..i])
    {
      assert tagIndexItems[..i + 1][..i] == tagIndexItems[..i];
      orderTagIndexNames := Insert(orderTagIndexNames, tagIndexItems[i].indexName);
    }
    assert tagIndexItems[..|tagIndexItems|] == tagIndexItems;
    for k := 0 to |orderTagIndexNames|
      invariant dataSet == DataSet(["Names"], NameRows(orderTagIndexNames[..k]))
    {
      var row := Row([Str(orderTagIndexNames[k])]);
      dataSet := dataSet.(rows := dataSet.rows + [row]);
    }
    assert orderTagIndexNames[..|orderTagIndexNames|] == orderTagIndexNames;
    return Ok, Some(dataSet);
  }

  /** The table SHOW TAG INDEXES publishes has the single column "Names",
      one value per row, and lists every index name exactly once in strictly
      ascending order. */
  lemma ShowTagIndexesTable(items: seq<IndexItem>)
    ensures var ds := DataSet(["Names"], NameRows(IndexNameSet(items)));
      && ds.colNames == ["Names"]
      && WellFormed(ds)
      && (forall k, l :: 0 <= k < l < |ds.rows| ==> Less(ds.rows[k].values[0].s, ds.rows[l].values[0].s))
      && (forall n :: Row([Str(n)]) in ds.rows <==> exists i :: 0 <= i < |items| && items[i].indexName == n)
  {
    var names := IndexNameSet(items);
    var rows := NameRows(names);
    IndexNameSetSpec(items);
    forall n ensures Row([Str(n)]) in rows <==> n in names {
      if n in names {
        var k :| 0 <= k < |names| && names[k] == n;
        assert rows[k] == Row([Str(n)]);
      }
    }
  }

  /** One "Name", "Index Status" row per status entry, in response order. */
  function StatusRows(statuses: seq<IndexStatus>): (rows: seq<Row>)
    ensures |rows| == |statuses|
    ensures forall k :: 0 <= k < |statuses| ==> rows[k] == Row([Str(statuses[k].name), Str(statuses[k].status)])
  {
    seq(|statuses|, k requires 0 <= k < |statuses| => Row([Str(statuses[k].name), Str(statuses[k].status)]))
  }

  /** SHOW TAG INDEX STATUS: one row per status entry, in response order,
      neither sorted nor deduplicated. */
  method ShowTagIndexStatus(resp: StatusOr<seq<IndexStatus>>) returns (status: Status, result: Option<DataSet>)
    ensures resp.Failed? ==> status == resp.status && result == None
    ensures resp.Returned? ==> status == Ok && result.Some?
    ensures resp.Returned? ==> result.value.colNames == ["Name", "Index Status"]
    ensures resp.Returned? ==> |result.value.rows| == |resp.value|
    ensures resp.Returned? ==> forall k :: 0 <= k < |resp.value| ==>
              result.value.rows[k] == Row([Str(resp.value[k].name), Str(resp.value[k].status)])
  {
    if resp.Failed? {
      return resp.status, None;
    }
    var indexStatuses := resp.value;
    var dataSet := DataSet(["Name", "Index Status"], []);
    for i := 0 to |indexStatuses|
      invariant dataSet.colNames == ["Name", "Index Status"]
      invariant dataSet.rows == StatusRows(indexStatuses[..i])
    {
      var row := Row([Str(indexStatuses[i].name), Str(indexStatuses[i].status)]);
      dataSet := dataSet.(rows := dataSet.rows + [row]);
    }
    assert indexStatuses[..|indexStatuses|] == indexStatuses;
    return Ok, Some(dataSet);
  }
}
