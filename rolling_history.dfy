/** The background-timestamp history of `SetLastProcessTekTimestampBg`: per
    region, a comma-separated string of markers, newest first. */
module RollingHistory {
  import opened Common
  import opened Text

  /** `max` in `SetLastProcessTekTimestampBg`. */
  const Max: nat := 15

  /** `List<T>.RemoveRange(index, count)`. */
  function RemoveRange<T>(list: seq<T>, index: nat, count: nat): (r: seq<T>)
    requires index + count <= |list|
    ensures |r| == |list| - count
    ensures forall i :: 0 <= i < index ==> r[i] == list[i]
    ensures forall i :: index <= i < |r| ==> r[i] == list[i + count]
  {
    list[..index] + list[index + count..]
  }

  /** The markers a stored history holds, newest first, read as the source
      reads it (trailing commas trimmed, then split on commas), except that
      a history that is empty once trimmed holds no marker, where the
      source's `Split` yields one empty token. */
  function Markers(history: string): seq<string>
  {
    var t := TrimEnd(history, ',');
    if t == [] then [] else Split(t, ',')
  }

  /** The old markers an append keeps: all of them while there are at most
      sixteen, otherwise the fifteen newest and the last (oldest) one. */
  function Retained(markers: seq<string>): (r: seq<string>)
    ensures |r| == if |markers| > Max + 1 then Max + 1 else |markers|
    ensures forall i :: 0 <= i < |r| && i < Max ==> r[i] == markers[i]
    ensures markers != [] ==> r[|r| - 1] == markers[|markers| - 1]
  {
    if |markers| > Max then markers[..Max] + [markers[|markers| - 1]] else markers
  }

  /** The string `SetLastProcessTekTimestampBg` stores. */
  function AppendedHistory(stored: string, created: Long): string
  {
    LongToString(created) + "," + Join(Retained(Split(TrimEnd(stored, ','), ',')), ',')
  }

  /** Appending puts the new marker in front of the retained old ones. */
  lemma MarkersOfAppended(stored: string, created: Long)
    ensures Markers(AppendedHistory(stored, created))
            == [LongToString(created)] + Retained(Markers(stored))
  {
    var c := LongToString(created);
    var t := TrimEnd(stored, ',');
    var list := Split(t, ',');
    var kept := Retained(list);
    var h := AppendedHistory(stored, created);
    if t == [] {
      assert list == [[]];
      assert kept == [[]];
      assert h == c + ",";
      assert h[..|h| - 1] == c;
      assert TrimEnd(h, ',') == TrimEnd(c, ',');
      assert TrimEnd(c, ',') == c;
      SplitJoin([c], ',');
    } else {
      SplitLastNonEmpty(t, ',');
      SplitPieces(t, ',');
      assert kept[|kept| - 1] == list[|list| - 1];
      var parts := [c] + kept;
      assert parts[1..] == kept;
      assert forall i :: 0 <= i < |parts| ==> ',' !in parts[i] by {
        forall i | 0 <= i < |parts| ensures ',' !in parts[i] {
          if i > 0 {
            assert parts[i] == kept[i - 1];
            assert kept[i - 1] in kept;
            assert forall j :: 0 <= j < |kept| ==> ',' !in kept[j] by {
              forall j | 0 <= j < |kept| ensures ',' !in kept[j] {
                if j < Max { assert kept[j] == list[j]; }
                else { assert kept[j] == list[|list| - 1]; }
              }
            }
          }
        }
      }
      assert Join(parts, ',') == c + [','] + Join(kept, ',');
      assert h == Join(parts, ',');
      JoinLast(parts, ',');
      assert TrimEnd(h, ',') == h;
      SplitJoin(parts, ',');
    }
  }

  /** Whatever was stored before, an append leaves at most seventeen
      markers: the new one and at most sixteen old ones. */
  lemma HistoryCapacity(stored: string, created: Long)
    ensures var n := |Markers(stored)|;
            |Markers(AppendedHistory(stored, created))|
            == 1 + (if n > Max + 1 then Max + 1 else n)
    ensures |Markers(AppendedHistory(stored, created))| <= Max + 2
  {
    MarkersOfAppended(stored, created);
  }

  /** The first append to an absent or empty history stores the marker
      followed by a comma, which reads back as that marker alone. */
  lemma AppendToEmpty(created: Long)
    ensures AppendedHistory("", created) == LongToString(created) + ","
    ensures Markers(AppendedHistory("", created)) == [LongToString(created)]
  {
    assert Split("", ',') == [[]];
    MarkersOfAppended("", created);
  }

  /** The history after appending `cs` in order, starting from `stored`. */
  function AppendAll(stored: string, cs: seq<Long>): string
  {
    if cs == [] then stored else AppendedHistory(AppendAll(stored, cs[..|cs| - 1]), cs[|cs| - 1])
  }

  /** The renderings of `cs`, last first. */
  function NewestFirst(cs: seq<Long>): (r: seq<string>)
    ensures |r| == |cs|
  {
    if cs == [] then [] else [LongToString(cs[|cs| - 1])] + NewestFirst(cs[..|cs| - 1])
  }

  /** After appending `cs` to an empty history, it holds every marker newest
      first while there are at most seventeen; beyond that, the sixteen
      newest and the very first marker ever appended. */
  lemma {:induction false} HistoryWindow(cs: seq<Long>)
    ensures |cs| <= Max + 2 ==> Markers(AppendAll("", cs)) == NewestFirst(cs)
    ensures |cs| > Max + 2 ==>
              Markers(AppendAll("", cs)) == NewestFirst(cs)[..Max + 1] + [LongToString(cs[0])]
  {
    if cs != [] {
      var prev := cs[..|cs| - 1];
      var last := cs[|cs| - 1];
      HistoryWindow(prev);
      MarkersOfAppended(AppendAll("", prev), last);
      if prev != [] {
        NewestFirstLast(prev);
        assert prev[0] == cs[0];
      }
      WindowStep(Markers(AppendAll("", prev)), NewestFirst(prev),
                 LongToString(last), LongToString(cs[0]));
    }
  }

  /** The inductive step of `HistoryWindow` on the marker lists alone: `m`
      are the markers before the append and `older` the renderings of the
      earlier values, newest first, whose last is `first`. */
  lemma WindowStep(m: seq<string>, older: seq<string>, newest: string, first: string)
    requires older != [] ==> older[|older| - 1] == first
    requires |older| <= Max + 2 ==> m == older
    requires |older| > Max + 2 ==> m == older[..Max + 1] + [first]
    ensures var all := [newest] + older;
            && (|all| <= Max + 2 ==> [newest] + Retained(m) == all)
            && (|all| > Max + 2 ==> [newest] + Retained(m) == all[..Max + 1] + [first])
  {
    var all := [newest] + older;
    if |older| <= Max {
      assert Retained(m) == m;
    } else if |older| == Max + 1 {
      assert m[..Max] + [m[|m| - 1]] == m;
    } else if |older| == Max + 2 {
      assert all[..Max + 1] == [newest] + older[..Max];
    } else {
      assert Retained(m) == older[..Max] + [first];
      assert all[..Max + 1] == [newest] + older[..Max];
    }
  }

  /** The oldest rendering comes last. */
  lemma {:induction false} NewestFirstLast(cs: seq<Long>)
    requires cs != []
    ensures NewestFirst(cs)[|cs| - 1] == LongToString(cs[0])
  {
    if |cs| > 1 {
      var prev := cs[..|cs| - 1];
      NewestFirstLast(prev);
      assert prev[0] == cs[0];
    }
  }
}
