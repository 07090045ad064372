/** The result table: the optimizer's flat list of placed subjects is
    grouped into cells keyed by slot token, and each cell of the 7 x 3 table
    shows its group (or nothing). */
module ScheduleView {

  /** One placed subject of the optimizer's response. */
  datatype ScheduleItem = ScheduleItem(
    time: string,          // slot token, `<day>_<label>`
    subject: string,
    instructor: string,
    startTime: string,
    endTime: string,
    isRetake: bool)

  /** The items placed in cell `key`, in response order. */
  function Bucket(items: seq<ScheduleItem>, key: string): seq<ScheduleItem>
  {
    if items == [] then []
    else
      var last := items[|items| - 1];
      Bucket(items[..|items| - 1], key) + (if last.time == key then [last] else [])
  }

  /** The keys that occur in the response. */
  function Times(items: seq<ScheduleItem>): set<string>
  {
    set i | 0 <= i < |items| :: items[i].time
  }

  /** The `forEach` that pushes each item onto the list of its `time` key,
      creating the list on first use. */
  method GroupByCell(items: seq<ScheduleItem>) returns (cells: map<string, seq<ScheduleItem>>)
    ensures cells.Keys == Times(items)
    ensures forall key :: key in cells ==> cells[key] == Bucket(items, key)
  {
    cells := map[];
    for n := 0 to |items|
      invariant cells.Keys == Times(items[..n])
      invariant forall key :: key in cells ==> cells[key] == Bucket(items[..n], key)
    {
      var item := items[n];
      assert items[..n + 1][..n] == items[..n];
      if item.time !in cells {
        cells := cells[item.time := []];
        BucketWithout(items[..n], item.time);
      }
      cells := cells[item.time := cells[item.time] + [item]];
      assert Times(items[..n + 1]) == Times(items[..n]) + {item.time} by {
        assert forall i :: 0 <= i < n ==> items[..n + 1][i] == items[..n][i];
        assert items[..n + 1][n] == item;
      }
    }
    assert items[..|items|] == items;
  }

  /** `scheduleMap[key] || []`: what the cell `key` shows. */
  function CellItems(cells: map<string, seq<ScheduleItem>>, key: string): seq<ScheduleItem>
  {
    if key in cells then cells[key] else []
  }

  lemma {:induction false} BucketWithout(items: seq<ScheduleItem>, key: string)
    requires key !in Times(items)
    ensures Bucket(items, key) == []
    decreases |items|
  {
    if items != [] {
      var init := items[..|items| - 1];
      assert Times(init) <= Times(items) by {
        forall i | 0 <= i < |init| ensures init[i].time in Times(items) {
          assert init[i] == items[i];
        }
      }
      BucketWithout(init, key);
      assert items[|items| - 1].time in Times(items);
    }
  }

  /** Whatever the key, the cell shows exactly the items placed in it. */
  lemma CellShowsBucket(items: seq<ScheduleItem>, cells: map<string, seq<ScheduleItem>>, key: string)
    requires cells.Keys == Times(items)
    requires forall k :: k in cells ==> cells[k] == Bucket(items, k)
    ensures CellItems(cells, key) == Bucket(items, key)
  {
    if key !in cells {
      BucketWithout(items, key);
    }
  }

  /** A bucket holds the items with that key, and only those. */
  lemma {:induction false} BucketMembers(items: seq<ScheduleItem>, key: string, x: ScheduleItem)
    ensures x in Bucket(items, key) <==> x in items && x.time == key
    decreases |items|
  {
    if items != [] {
      var init, last := items[..|items| - 1], items[|items| - 1];
      BucketMembers(init, key, x);
      assert items == init + [last];
    }
  }

  /** Grouping loses and invents nothing: the items of one key and the
      items of all other keys together are the whole response. */
  lemma {:induction false} BucketSplit(items: seq<ScheduleItem>, key: string)
    ensures multiset(items) == multiset(Bucket(items, key)) + multiset(Others(items, key))
    decreases |items|
  {
    if items != [] {
      var init, last := items[..|items| - 1], items[|items| - 1];
      BucketSplit(init, key);
      assert items == init + [last];
    }
  }

  /** The items placed in cells other than `key`, in response order. */
  function Others(items: seq<ScheduleItem>, key: string): seq<ScheduleItem>
  {
    if items == [] then []
    else
      var last := items[|items| - 1];
      Others(items[..|items| - 1], key) + (if last.time != key then [last] else [])
  }
}
