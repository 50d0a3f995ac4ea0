/** One dictionary collection of the single-table backend (services/storage.py,
    lines 130-194 and 251-394): a row per record over a legacy one-item blob. */
module Storage {
  import opened Wrappers

  // Record keys; the blob's own sort key is not one of them.
  type Key = nat
  type Payload = nat

  // A row written by a bulk save carries no version.
  datatype Row = Row(payload: Payload, ver: Option<nat>)

  type Data = map<Key, Payload>

  datatype Lost = Lost(expected: int, found: int)

  function Merged(blob: Option<Data>, rows: map<Key, Row>): Data {
    (if blob.Some? then blob.value else map[]) + map k | k in rows :: rows[k].payload
  }

  // 0: absent. -1: present without a version. Otherwise the version.
  function VersionAt(blob: Option<Data>, rows: map<Key, Row>, k: Key): int {
    if k in rows then (if rows[k].ver.Some? then rows[k].ver.value else -1)
    else if blob.Some? && k in blob.value then -1 else 0
  }

  // The last item saved under each key.
  function LastWins(items: seq<(Key, Payload)>): Data {
    if items == [] then map[] else LastWins(items[..|items| - 1])[items[|items| - 1].0 := items[|items| - 1].1]
  }

  /** A key is there exactly when some item has it, with the value of the last such item. */
  lemma {:induction false} LastWinsMeans(items: seq<(Key, Payload)>, k: Key)
    ensures k in LastWins(items) <==> exists i :: 0 <= i < |items| && items[i].0 == k
    ensures k in LastWins(items) ==> exists i :: 0 <= i < |items| && items[i] == (k, LastWins(items)[k])
                                       && forall j :: i < j < |items| ==> items[j].0 != k
    decreases |items|
  {
    if items != [] {
      var n := |items| - 1;
      var front := items[..n];
      LastWinsMeans(front, k);
      if items[n].0 == k {
        assert items[n] == (k, LastWins(items)[k]);
      } else if k in LastWins(front) {
        var i :| 0 <= i < n && front[i] == (k, LastWins(front)[k]) && forall j :: i < j < n ==> front[j].0 != k;
        assert items[i] == (k, LastWins(items)[k]);
      }
    }
  }

  // Assigns each item its key; a later item replaces an earlier one.
  method Collapse(items: seq<(Key, Payload)>) returns (wanted: Data)
    ensures wanted == LastWins(items)
  {
    wanted := map[];
    for i := 0 to |items|
      invariant wanted == LastWins(items[..i])
    {
      assert items[..i + 1][..i] == items[..i];
      wanted := wanted[items[i].0 := items[i].1];
    }
    assert items[..|items|] == items;
  }

  // The puts of a batch: a row without a version for each item.
  method PutAll(rows: map<Key, Row>, items: Data) returns (r: map<Key, Row>)
    ensures r == rows + Unversioned(items)
  {
    r := rows;
    var todo := items.Keys;
    while todo != {}
      invariant todo <= items.Keys && r.Keys == rows.Keys + (items.Keys - todo)
      invariant forall k :: k in r ==> r[k] == if k in items && k !in todo then Row(items[k], None) else rows[k]
    {
      var k :| k in todo;
      r := r[k := Row(items[k], None)];
      todo := todo - {k};
    }
  }

  // The rows a bulk save of a list leaves: what disappeared is gone, what changed
  // has lost its version, what did not change keeps it.
  function ListRows(rows: map<Key, Row>, wanted: Data): map<Key, Row> {
    map k | k in wanted ::
      if k in rows && rows[k].payload == wanted[k] then rows[k] else Row(wanted[k], None)
  }

  function Unversioned(items: Data): map<Key, Row> { map k | k in items :: Row(items[k], None) }

  lemma ListRowsAre(rows: map<Key, Row>, wanted: Data, changed: Data)
    requires changed == map k | k in wanted && (k !in rows || rows[k].payload != wanted[k]) :: wanted[k]
    ensures rows - (rows.Keys - wanted.Keys) + Unversioned(changed) == ListRows(rows, wanted)
  {
  }

  lemma ListRowsView(rows: map<Key, Row>, wanted: Data)
    ensures Merged(None, ListRows(rows, wanted)) == wanted
  {
  }

  lemma PutView(blob: Option<Data>, rows: map<Key, Row>, k: Key, row: Row)
    ensures Merged(blob, rows[k := row]) == Merged(blob, rows)[k := row.payload]
  {
  }

  ghost predicate InBoth(blob: Option<Data>, rows: map<Key, Row>, k: Key) {
    k in rows && blob.Some? && k in blob.value
  }

  lemma DropRowView(blob: Option<Data>, rows: map<Key, Row>, k: Key)
    requires k in rows
    ensures InBoth(blob, rows, k) ==> Merged(blob, rows - {k}) == Merged(blob, rows)[k := blob.value[k]]
    ensures !InBoth(blob, rows, k) ==> Merged(blob, rows - {k}) == Merged(blob, rows) - {k}
  {
  }

  lemma Present(blob: Option<Data>, rows: map<Key, Row>, k: Key)
    ensures k in Merged(blob, rows) <==> k in rows || (blob.Some? && k in blob.value)
  {
  }

  lemma DropBlobView(blob: Data, rows: map<Key, Row>, k: Key)
    requires k !in rows
    ensures Merged(Some(blob - {k}), rows) == Merged(Some(blob), rows) - {k}
  {
  }

  class Collection {
    var rows: map<Key, Row>
    var blob: Option<Data>

    constructor (legacy: Option<Data>)
      ensures Valid() && rows == map[] && blob == legacy && View() == if legacy.Some? then legacy.value else map[]
    {
      rows, blob := map[], legacy;
    }

    // Written versions start at 1.
    ghost predicate Valid()
      reads this
    {
      forall k :: k in rows && rows[k].ver.Some? ==> rows[k].ver.value >= 1
    }

    // What readers of the collection see.
    ghost function View(): Data
      reads this
    {
      Merged(blob, rows)
    }

    method GetItem(k: Key) returns (item: Option<Payload>, ver: int)
      requires Valid()
      ensures item == if k in View() then Some(View()[k]) else None
      ensures ver == VersionAt(blob, rows, k)
      ensures ver == if item == None then 0 else if k in rows && rows[k].ver.Some? then rows[k].ver.value else -1
    {
      if k in rows {
        return Some(rows[k].payload), if rows[k].ver.Some? then rows[k].ver.value else -1;
      }
      if blob.Some? && k in blob.value {
        return Some(blob.value[k]), -1;
      }
      return None, 0;
    }

    // The merge of the whole-collection read: the blob first, rows over it.
    method Load() returns (data: Data)
      ensures data == View()
    {
      var legacy := if blob.Some? then blob.value else map[];
      data := legacy;
      var todo := rows.Keys;
      while todo != {}
        invariant todo <= rows.Keys && data.Keys == legacy.Keys + (rows.Keys - todo)
        invariant forall k :: k in data ==> data[k] == if k in rows && k !in todo then rows[k].payload else legacy[k]
      {
        var k :| k in todo;
        data := data[k := rows[k].payload];
        todo := todo - {k};
      }
    }

    method PutItem(k: Key, item: Payload, expected: Option<int>) returns (r: Result<int, Lost>)
      requires Valid()
      modifies this
      ensures Valid()
      ensures var cur := VersionAt(old(blob), old(rows), k);
        if expected.Some? && expected.value != cur then
          r == Err(Lost(expected.value, cur)) && rows == old(rows) && blob == old(blob)
        else
          && r == Ok((if cur > 0 then cur else 0) + 1)
          && rows == old(rows)[k := Row(item, Some(r.value))] && blob == old(blob)
          && View() == old(View())[k := item] && VersionAt(blob, rows, k) == r.value
    {
      var cur: int;
      if k in rows {
        cur := if rows[k].ver.Some? then rows[k].ver.value else -1;
      } else {
        cur := if blob.Some? && k in blob.value then -1 else 0;
      }
      if expected.Some? && expected.value != cur {
        return Err(Lost(expected.value, cur));
      }
      var ver := (if cur > 0 then cur else 0) + 1;
      PutView(blob, rows, k, Row(item, Some(ver)));
      hide Merged;
      rows := rows[k := Row(item, Some(ver))];
      r := Ok(ver);
    }

    // The bulk save of a dictionary: rows for exactly its keys, and no blob.
    method SaveDict(obj: Data)
      requires Valid()
      modifies this
      ensures Valid()
      ensures View() == obj && blob == None && rows == Unversioned(obj)
    {
      rows := PutAll(rows - (rows.Keys - obj.Keys), obj);
      blob := None;
      assert rows == map k | k in obj :: Row(obj[k], None);
    }

    // The bulk save of a list.
    method SaveList(items: seq<(Key, Payload)>)
      requires Valid()
      modifies this
      ensures Valid()
      ensures blob == old(blob) && rows == ListRows(old(rows), LastWins(items))
      ensures blob == None ==> View() == LastWins(items)
    {
      var wanted := Collapse(items);
      var changed := map k | k in wanted && (k !in rows || rows[k].payload != wanted[k]) :: wanted[k];
      ListRowsAre(rows, wanted, changed);
      ListRowsView(rows, wanted);
      hide Merged, Unversioned;
      rows := PutAll(rows - (rows.Keys - wanted.Keys), changed);
    }

    // Deleting a record that is both a row and in the blob uncovers the blob's copy.
    method DeleteItem(k: Key) returns (existed: bool)
      requires Valid()
      modifies this
      ensures Valid()
      ensures existed <==> k in old(View())
      ensures InBoth(old(blob), old(rows), k) ==> View() == old(View())[k := old(blob).value[k]]
      ensures !InBoth(old(blob), old(rows), k) ==> View() == old(View()) - {k}
      ensures k !in rows
    {
      ghost var before := View();
      existed := k in rows;
      if existed {
        DropRowView(blob, rows, k);
      } else if blob.Some? {
        DropBlobView(blob.value, rows, k);
      }
      Present(blob, rows, k);
      hide Merged;
      rows := rows - {k};
      if !existed && blob.Some? && k in blob.value {
        blob := Some(blob.value - {k});
        existed := true;
      }
      assert !existed ==> before - {k} == before;
    }
  }

  /** A second delete removes the uncovered copy for good. */
  method DeleteTwice(c: Collection, k: Key)
    requires c.Valid()
    modifies c
    ensures c.Valid() && c.View() == old(c.View()) - {k}
  {
    var first := c.DeleteItem(k);
    var second := c.DeleteItem(k);
  }
}
