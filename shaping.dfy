/** Dataset shaping before rendering (rsformat.js:31-55): the column
    order taken from the first record, the synthetic ordinal `ID` field,
    and the pivot of the table into a header row and body rows. */
module Shaping {
  import opened Values

  /** `extractColumns(data)`: the keys of the first record, in insertion
      order, or no columns for an empty dataset. */
  function ExtractColumns(data: Dataset): (cols: seq<string>)
    ensures data == [] ==> cols == []
    ensures data != [] ==> |cols| == |data[0]| && forall i :: 0 <= i < |cols| ==> cols[i] == data[0][i].key
    ensures data != [] && UniqueKeys(data[0]) ==>
      forall i :: 0 <= i < |cols| ==> Lookup(data[0], cols[i]) == data[0][i].value
  {
    if data == [] then []
    else
      var row := data[0];
      assert UniqueKeys(row) ==> forall i :: 0 <= i < |row| ==> Lookup(row, row[i].key) == row[i].value by {
        if UniqueKeys(row) {
          forall i | 0 <= i < |row| ensures Lookup(row, row[i].key) == row[i].value {
            LookupUnique(row, row[i].key, i);
          }
        }
      }
      Keys(row)
  }

  /** The keys of `ks` other than `k`, in their order. */
  function Without(ks: seq<string>, k: string): (r: seq<string>)
    ensures k !in r
    ensures forall x :: x in r <==> x in ks && x != k
    decreases |ks|
  {
    if ks == [] then []
    else (if ks[0] == k then [] else [ks[0]]) + Without(ks[1..], k)
  }

  /** The record without its `k` property. */
  function RemoveKey(r: Record, k: string): (out: Record)
    decreases |r|
  {
    if r == [] then []
    else (if r[0].key == k then [] else [r[0]]) + RemoveKey(r[1..], k)
  }

  /** Removing `k` keeps the other keys in their order... */
  lemma {:induction false} RemoveKeyKeys(r: Record, k: string)
    ensures Keys(RemoveKey(r, k)) == Without(Keys(r), k)
    decreases |r|
  {
    if r != [] {
      RemoveKeyKeys(r[1..], k);
      assert Keys(r)[1..] == Keys(r[1..]);
      var head: Record := if r[0].key == k then [] else [r[0]];
      assert Keys(head + RemoveKey(r[1..], k)) == Keys(head) + Keys(RemoveKey(r[1..], k));
    }
  }

  /** ...and their values... */
  lemma {:induction false} RemoveKeyLookup(r: Record, k: string, x: string)
    requires x != k
    ensures Lookup(RemoveKey(r, k), x) == Lookup(r, x)
    decreases |r|
  {
    if r != [] {
      var rest := RemoveKey(r[1..], k);
      RemoveKeyLookup(r[1..], k, x);
      if r[0].key == k {
        assert RemoveKey(r, k) == [] + rest == rest;
        assert Lookup(r, x) == Lookup(r[1..], x);
      } else {
        var out := [r[0]] + rest;
        assert RemoveKey(r, k) == out;
        assert out[0] == r[0] && out[1..] == rest;
        if r[0].key != x {
          assert Lookup(out, x) == Lookup(rest, x);
          assert Lookup(r, x) == Lookup(r[1..], x);
        }
      }
    }
  }

  /** ...and no key is duplicated by it. */
  lemma {:induction false} RemoveKeyUnique(r: Record, k: string)
    requires UniqueKeys(r)
    ensures UniqueKeys(RemoveKey(r, k))
    decreases |r|
  {
    if r != [] {
      RemoveKeyUnique(r[1..], k);
      if r[0].key != k {
        RemoveKeyKeys(r[1..], k);
        var rest := RemoveKey(r[1..], k);
        assert Keys(r)[1..] == Keys(r[1..]);
        assert r[0].key !in Keys(r[1..]);
        assert r[0].key !in Keys(rest);
        var out := [r[0]] + rest;
        forall i, j | 0 <= i < j < |out| ensures out[i].key != out[j].key {
          if i == 0 {
            assert out[j].key == Keys(rest)[j - 1];
          } else {
            assert out[i] == rest[i - 1] && out[j] == rest[j - 1];
          }
        }
      }
    }
  }

  /** Reading a record with one property put in front. */
  lemma PrependedLookup(f: Field, rest: Record, x: string)
    ensures Lookup([f] + rest, x) == if f.key == x then f.value else Lookup(rest, x)
  {
    assert ([f] + rest)[1..] == rest;
  }

  /** A property put in front of a record without its key repeats no key. */
  lemma PrependedUnique(f: Field, rest: Record)
    requires UniqueKeys(rest) && f.key !in Keys(rest)
    ensures UniqueKeys([f] + rest)
  {
    var r := [f] + rest;
    forall i, j | 0 <= i < j < |r| ensures r[i].key != r[j].key {
      if i == 0 {
        assert r[j].key == Keys(rest)[j - 1];
      } else {
        assert r[i] == rest[i - 1] && r[j] == rest[j - 1];
      }
    }
  }

  /** `{ ID: ordinal, ...row }`: an `ID` property first, holding `ordinal`
      unless the record has its own `ID`, whose value then wins because the
      spread comes after; every other property is unchanged and keeps its
      place after `ID`. */
  function WithId(row: Record, ordinal: nat): (r: Record)
    ensures |r| >= 1 && r[0].key == "ID"
    ensures Lookup(r, "ID") == if "ID" in Keys(row) then Lookup(row, "ID") else Num(ordinal)
    ensures forall x :: x != "ID" ==> Lookup(r, x) == Lookup(row, x)
    ensures Keys(r) == ["ID"] + Without(Keys(row), "ID")
    ensures UniqueKeys(row) ==> UniqueKeys(r)
  {
    var id := Field("ID", if "ID" in Keys(row) then Lookup(row, "ID") else Num(ordinal));
    var rest := RemoveKey(row, "ID");
    assert Keys([id] + rest) == ["ID"] + Without(Keys(row), "ID") by {
      RemoveKeyKeys(row, "ID");
      assert Keys([id] + rest) == [id.key] + Keys(rest);
    }
    assert Lookup([id] + rest, "ID") == id.value by {
      PrependedLookup(id, rest, "ID");
    }
    assert forall x :: x != "ID" ==> Lookup([id] + rest, x) == Lookup(row, x) by {
      forall x | x != "ID" ensures Lookup([id] + rest, x) == Lookup(row, x) {
        PrependedLookup(id, rest, x);
        RemoveKeyLookup(row, "ID", x);
      }
    }
    assert UniqueKeys(row) ==> UniqueKeys([id] + rest) by {
      if UniqueKeys(row) {
        RemoveKeyUnique(row, "ID");
        RemoveKeyKeys(row, "ID");
        PrependedUnique(id, rest);
      }
    }
    [id] + rest
  }

  /** `addIdColumn(data)` (rsformat.js:36-41): record `i` gets the 1-based
      ordinal `i + 1` as its `ID`. */
  function AddIdColumn(data: Dataset): (out: Dataset)
    ensures |out| == |data|
    ensures forall i :: 0 <= i < |data| ==> out[i] == WithId(data[i], i + 1)
    ensures forall i :: 0 <= i < |data| ==>
      Lookup(out[i], "ID") == if "ID" in Keys(data[i]) then Lookup(data[i], "ID") else Num(i + 1)
  {
    seq(|data|, i requires 0 <= i < |data| => WithId(data[i], i + 1))
  }

  /** The columns shown: `['ID', ...columns]` when the ID column is on. */
  function ShownColumns(columns: seq<string>, showId: bool): (cols: seq<string>)
    ensures |cols| == |columns| + (if showId then 1 else 0)
    ensures showId ==> cols[0] == "ID" && cols[1..] == columns
    ensures !showId ==> cols == columns
  {
    if showId then ["ID"] + columns else columns
  }

  /** The records shown: numbered by AddIdColumn when the ID column is on. */
  function ShownData(data: Dataset, showId: bool): (d: Dataset)
    ensures |d| == |data|
    ensures showId ==> d == AddIdColumn(data)
    ensures !showId ==> d == data
  {
    if showId then AddIdColumn(data) else data
  }

  /** The pivoted table: `headers` is the first column turned into a row,
      `body` the remaining columns turned into rows. */
  datatype Pivot = Pivot(headers: seq<Value>, body: seq<seq<Value>>)

  /** `[colName, ...data.map(row => row[colName] ?? '')]`. */
  function PivotRow(col: string, data: Dataset): (row: seq<Value>)
    ensures |row| == |data| + 1 && row[0] == Str(col)
    ensures forall k :: 1 <= k <= |data| ==> row[k] == OrEmpty(Lookup(data[k - 1], col))
  {
    [Str(col)] + seq(|data|, k requires 0 <= k < |data| => OrEmpty(Lookup(data[k], col)))
  }

  /** `transposeData(columns, data)` (rsformat.js:43-55). */
  function TransposeData(columns: seq<string>, data: Dataset): (p: Pivot)
    ensures columns == [] || data == [] ==> p.headers == [] && p.body == []
    ensures columns != [] && data != [] ==>
      && |p.headers| == |data| + 1
      && p.headers[0] == Str(columns[0])
      && (forall k :: 1 <= k <= |data| ==> p.headers[k] == OrEmpty(Lookup(data[k - 1], columns[0])))
      && |p.body| == |columns| - 1
      && forall r :: 0 <= r < |p.body| ==>
           && |p.body[r]| == |data| + 1
           && p.body[r][0] == Str(columns[r + 1])
           && forall k :: 1 <= k <= |data| ==> p.body[r][k] == OrEmpty(Lookup(data[k - 1], columns[r + 1]))
    ensures forall v :: v in p.headers ==> !IsNullish(v)
    ensures forall r, v :: 0 <= r < |p.body| && v in p.body[r] ==> !IsNullish(v)
  {
    if columns == [] || data == [] then Pivot([], [])
    else
      Pivot(PivotRow(columns[0], data),
            seq(|columns| - 1, r requires 0 <= r < |columns| - 1 => PivotRow(columns[r + 1], data)))
  }

  /** The pivot is a transposition: the value at row `k`, column `c` of the
      table is found at column `k + 1` of the pivot row for column `c`, with
      null and undefined shown as the empty string. */
  lemma PivotCellsAreTableCells(columns: seq<string>, data: Dataset, c: nat, k: nat)
    requires c < |columns| && k < |data|
    ensures var p := TransposeData(columns, data);
      (if c == 0 then p.headers[k + 1] else p.body[c - 1][k + 1]) == OrEmpty(Lookup(data[k], columns[c]))
  {
  }
}
