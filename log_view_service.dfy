/** `LogViewService`: CSV field extraction and the grep over log files.
    A file is the sequence of its lines; the regular expression is a match
    predicate with a group-value function, and the culture's string
    comparison is an abstract total preorder `leq`. */
module LogView {
  import opened Common
  import opened Text

  // ----- CsvFilter -------------------------------------------------------------

  /** `CsvFilter(input, i)`: field `i` (counted from 1) of a comma-separated
      line, with all leading and trailing `"` removed; an index error when
      `i` is not between 1 and the number of fields. */
  function CsvFilter(input: string, i: int): (r: Result<string>)
    ensures r.Success? <==> 1 <= i <= |Split(input, ',')|
    ensures r.Failure? ==> r.error == IndexOutOfRange
    ensures r.Success? ==> r.value == Trim(Split(input, ',')[i - 1], '"')
  {
    var fields := Split(input, ',');
    if 0 <= i - 1 < |fields| then Success(Trim(fields[i - 1], '"')) else Failure(IndexOutOfRange)
  }

  /** An extracted field holds no comma and neither starts nor ends with
      a quote. */
  lemma CsvFilterField(input: string, i: int)
    requires CsvFilter(input, i).Success?
    ensures var v := CsvFilter(input, i).value;
            ',' !in v && (v == [] || (v[0] != '"' && v[|v| - 1] != '"'))
  {
    var fields := Split(input, ',');
    SplitPieces(input, ',');
    TrimKeepsOut(fields[i - 1], '"', ',');
  }

  /** A line has one field more than it has commas. */
  lemma CsvFilterInRange(input: string, i: int)
    ensures CsvFilter(input, i).Success? <==> 1 <= i <= multiset(input)[','] + 1
  {
    SplitCount(input, ',');
  }

  /** On a line joined from comma-free fields, `CsvFilter` gives back the
      requested field, quotes trimmed; a field without surrounding quotes
      comes back unchanged. */
  lemma CsvFilterOfJoin(fields: seq<string>, i: int)
    requires 1 <= i <= |fields|
    requires forall j :: 0 <= j < |fields| ==> ',' !in fields[j]
    ensures CsvFilter(Join(fields, ','), i) == Success(Trim(fields[i - 1], '"'))
    ensures var f := fields[i - 1];
            (f == [] || (f[0] != '"' && f[|f| - 1] != '"')) ==>
              CsvFilter(Join(fields, ','), i) == Success(f)
  {
    SplitJoin(fields, ',');
    var f := fields[i - 1];
    if f == [] || (f[0] != '"' && f[|f| - 1] != '"') {
      TrimUnchanged(f, '"');
    }
  }

  /** `CsvFilter(string[], int)`: the field of every line, in order; the
      index error of the first line that lacks it otherwise. */
  function CsvFilterAll(input: seq<string>, i: int): (r: Result<seq<string>>)
    ensures r.Success? <==> forall j :: 0 <= j < |input| ==> CsvFilter(input[j], i).Success?
    ensures r.Failure? ==> r.error == IndexOutOfRange
    ensures r.Success? ==>
              |r.value| == |input| &&
              forall j :: 0 <= j < |input| ==> r.value[j] == CsvFilter(input[j], i).value
  {
    SelectAll(input, (line: string) => CsvFilter(line, i))
  }

  // ----- LogViewGrep: specification -------------------------------------------

  /** The arguments of `LogViewGrep` after the pattern is abstracted:
      `isMatch(line)` is `Regex.Match(line, pattern).Success`, and
      `group(line, key)` is `match.Groups[key].Value`. */
  datatype GrepQuery = GrepQuery(
    isMatch: string -> bool,
    group: (string, string) -> string,
    max: int,
    filter: int,
    keys: Option<seq<string>>)

  /** `"," + group(line, key)` for every non-empty key, in order. */
  function KeySuffix(line: string, keys: seq<string>, group: (string, string) -> string): string
  {
    if keys == [] then []
    else
      var key := keys[|keys| - 1];
      KeySuffix(line, keys[..|keys| - 1], group) + (if key == [] then [] else "," + group(line, key))
  }

  /** What the keys append to a matching line (nothing when `keys` is null). */
  function Suffix(line: string, q: GrepQuery): string
  {
    if q.keys.Some? then KeySuffix(line, q.keys.value, q.group) else []
  }

  /** The entry a matching line contributes: its `CsvFilter` field when
      `filter > 0` (which can fail), the line itself otherwise, followed by
      the key suffix. */
  function FormattedMatch(line: string, q: GrepQuery): Result<string>
  {
    var base := if q.filter > 0 then CsvFilter(line, q.filter) else Success(line);
    if base.Failure? then base else Success(base.value + Suffix(line, q))
  }

  /** How a matching line is turned into an entry, as a function value. */
  function EntryOf(q: GrepQuery): string -> Result<string>
  {
    (line: string) => FormattedMatch(line, q)
  }

  // The reading rules below are stated for any match predicate and any
  // entry function; a failing entry stands for the exception `CsvFilter`
  // throws.

  /** The entries one file contributes; `failed` when an entry failed,
      which ends the scan at that line. */
  datatype Scan = Scan(added: seq<string>, failed: bool)

  function ScanLines(lines: seq<string>, isMatch: string -> bool, entry: string -> Result<string>): Scan
  {
    if lines == [] then Scan([], false)
    else
      var before := ScanLines(lines[..|lines| - 1], isMatch, entry);
      var line := lines[|lines| - 1];
      if before.failed || !isMatch(line) then before
      else if entry(line).Failure? then Scan(before.added, true)
      else Scan(before.added + [entry(line).value], false)
  }

  /** The entries collected from the files in reading order, before sorting;
      `stopped` when reading ended before the last file was done with:
      an entry failed, or at the end of a file `max > 0` and at least `max`
      entries were collected. */
  datatype Grep = Grep(output: seq<string>, stopped: bool)

  function GrepFiles(files: seq<seq<string>>, isMatch: string -> bool,
                     entry: string -> Result<string>, max: int): Grep
  {
    if files == [] then Grep([], false)
    else
      var before := GrepFiles(files[..|files| - 1], isMatch, entry, max);
      if before.stopped then before
      else
        var scan := ScanLines(files[|files| - 1], isMatch, entry);
        var output := before.output + scan.added;
        Grep(output, scan.failed || (max > 0 && |output| >= max))
  }

  /** What `LogViewGrep` collects from the files for query `q`. */
  function Grepped(files: seq<seq<string>>, q: GrepQuery): Grep
  {
    GrepFiles(files, q.isMatch, EntryOf(q), q.max)
  }

  /** The scan of a prefix extended by the next line. */
  lemma ScanNext(lines: seq<string>, j: nat, isMatch: string -> bool, entry: string -> Result<string>)
    requires j < |lines| && !ScanLines(lines[..j], isMatch, entry).failed
    ensures var before := ScanLines(lines[..j], isMatch, entry).added;
            ScanLines(lines[..j + 1], isMatch, entry) ==
              if !isMatch(lines[j]) then Scan(before, false)
              else if entry(lines[j]).Failure? then Scan(before, true)
              else Scan(before + [entry(lines[j]).value], false)
  {
    assert lines[..j + 1][..j] == lines[..j];
  }

  /** Lines after a failing one are never read. */
  lemma {:induction false} ScanStops(a: seq<string>, b: seq<string>,
                                     isMatch: string -> bool, entry: string -> Result<string>)
    requires ScanLines(a, isMatch, entry).failed
    ensures ScanLines(a + b, isMatch, entry) == ScanLines(a, isMatch, entry)
  {
    if b == [] {
      assert a + b == a;
    } else {
      var init := b[..|b| - 1];
      assert (a + b)[..|a + b| - 1] == a + init;
      ScanStops(a, init, isMatch, entry);
    }
  }

  /** `ScanStops` for a failure at line `j`. */
  lemma ScanStopsAt(lines: seq<string>, j: nat, isMatch: string -> bool, entry: string -> Result<string>)
    requires j < |lines| && ScanLines(lines[..j + 1], isMatch, entry).failed
    ensures ScanLines(lines, isMatch, entry) == ScanLines(lines[..j + 1], isMatch, entry)
  {
    assert lines[..j + 1] + lines[j + 1..] == lines;
    ScanStops(lines[..j + 1], lines[j + 1..], isMatch, entry);
  }

  /** The grep of a prefix of the files extended by the next file. */
  lemma GrepNext(files: seq<seq<string>>, n: nat, isMatch: string -> bool,
                 entry: string -> Result<string>, max: int)
    requires n < |files| && !GrepFiles(files[..n], isMatch, entry, max).stopped
    ensures var scan := ScanLines(files[n], isMatch, entry);
            var output := GrepFiles(files[..n], isMatch, entry, max).output + scan.added;
            GrepFiles(files[..n + 1], isMatch, entry, max)
            == Grep(output, scan.failed || (max > 0 && |output| >= max))
  {
    assert files[..n + 1][..n] == files[..n];
  }

  /** No file after the one at whose end reading stopped is read: the
      result does not depend on the later files. */
  lemma {:induction false} GrepStopsReading(a: seq<seq<string>>, b: seq<seq<string>>,
                                            isMatch: string -> bool,
                                            entry: string -> Result<string>, max: int)
    requires GrepFiles(a, isMatch, entry, max).stopped
    ensures GrepFiles(a + b, isMatch, entry, max) == GrepFiles(a, isMatch, entry, max)
  {
    if b == [] {
      assert a + b == a;
    } else {
      var init := b[..|b| - 1];
      assert (a + b)[..|a + b| - 1] == a + init;
      GrepStopsReading(a, init, isMatch, entry, max);
    }
  }

  /** `GrepStopsReading` for reading that stopped at file `n`. */
  lemma GrepStopsAt(files: seq<seq<string>>, n: nat, isMatch: string -> bool,
                    entry: string -> Result<string>, max: int)
    requires n < |files| && GrepFiles(files[..n + 1], isMatch, entry, max).stopped
    ensures GrepFiles(files, isMatch, entry, max) == GrepFiles(files[..n + 1], isMatch, entry, max)
  {
    assert files[..n + 1] + files[n + 1..] == files;
    GrepStopsReading(files[..n + 1], files[n + 1..], isMatch, entry, max);
  }

  /** When reading ran to the end with `max > 0`, fewer than `max` entries
      were collected. */
  lemma GrepBelowMax(files: seq<seq<string>>, isMatch: string -> bool,
                     entry: string -> Result<string>, max: int)
    requires max > 0 && !GrepFiles(files, isMatch, entry, max).stopped
    ensures |GrepFiles(files, isMatch, entry, max).output| < max
  {
  }

  /** Without field extraction a matching line's entry is the line and its
      key suffix. */
  lemma FormattedWithoutFilter(line: string, q: GrepQuery)
    requires q.filter <= 0
    ensures FormattedMatch(line, q) == Success(line + Suffix(line, q))
  {
  }

  /** The limit is checked only at the end of a file, so one file can push
      the result past `max`: with `max == 1`, a file of two matching lines
      yields two entries. */
  lemma GrepMayExceedMax(q: GrepQuery)
    requires q.max == 1 && q.filter <= 0 && q.keys.None?
    requires q.isMatch("a")
    ensures Grepped([["a", "a"]], q).output == ["a", "a"]
  {
    var f := ["a", "a"];
    var one := ["a"];
    assert f[..1] == one;
    assert one[..0] == [];
    FormattedWithoutFilter("a", q);
    assert "a" + Suffix("a", q) == "a";
    assert EntryOf(q)("a") == Success("a");
    assert ScanLines(one, q.isMatch, EntryOf(q)) == Scan(["a"], false);
    var files: seq<seq<string>> := [f];
    assert files[..0] == [];
  }

  /** The entries of lines on none of which `entry` fails. */
  function Entries(lines: seq<string>, entry: string -> Result<string>): (r: seq<string>)
    requires forall line :: line in lines ==> entry(line).Success?
    ensures |r| == |lines|
    ensures forall j :: 0 <= j < |lines| ==> r[j] == entry(lines[j]).value
  {
    seq(|lines|, j requires 0 <= j < |lines| => entry(lines[j]).value)
  }

  lemma EntriesAppend(a: seq<string>, b: seq<string>, entry: string -> Result<string>)
    requires forall line :: line in a + b ==> entry(line).Success?
    ensures Entries(a + b, entry) == Entries(a, entry) + Entries(b, entry)
  {
  }

  /** All lines of the files, in reading order. */
  function Flatten(files: seq<seq<string>>): seq<string>
  {
    if files == [] then [] else Flatten(files[..|files| - 1]) + files[|files| - 1]
  }

  /** When no matching line's entry fails, a file's scan yields the entries
      of its matching lines, in order. */
  lemma {:induction false} ScanTotal(lines: seq<string>, isMatch: string -> bool,
                                     entry: string -> Result<string>)
    requires forall line :: line in lines && isMatch(line) ==> entry(line).Success?
    ensures forall line :: line in Filter(lines, isMatch) ==> entry(line).Success?
    ensures ScanLines(lines, isMatch, entry) == Scan(Entries(Filter(lines, isMatch), entry), false)
  {
    if lines != [] {
      var init := lines[..|lines| - 1];
      var line := lines[|lines| - 1];
      assert lines == init + [line];
      ScanTotal(init, isMatch, entry);
      var kept := Filter(init, isMatch);
      FilterAppend(init, [line], isMatch);
      var single: seq<string> := [line];
      assert single[1..] == [];
      if isMatch(line) {
        assert Filter(single, isMatch) == single;
        assert Entries(kept + single, entry) == Entries(kept, entry) + [entry(line).value];
      } else {
        assert Filter(single, isMatch) == [];
        assert kept + [] == kept;
      }
    }
  }

  /** With no limit and no matching line whose entry fails, the grep reads
      every file and collects the entries of all matching lines of all
      files, in reading order. */
  lemma {:induction false} GrepTotal(files: seq<seq<string>>, isMatch: string -> bool,
                                     entry: string -> Result<string>, max: int)
    requires max <= 0
    requires forall line :: line in Flatten(files) && isMatch(line) ==> entry(line).Success?
    ensures forall line :: line in Filter(Flatten(files), isMatch) ==> entry(line).Success?
    ensures GrepFiles(files, isMatch, entry, max)
            == Grep(Entries(Filter(Flatten(files), isMatch), entry), false)
  {
    if files != [] {
      var init := files[..|files| - 1];
      var last := files[|files| - 1];
      GrepTotal(init, isMatch, entry, max);
      ScanTotal(last, isMatch, entry);
      FilterAppend(Flatten(init), last, isMatch);
      EntriesAppend(Filter(Flatten(init), isMatch), Filter(last, isMatch), entry);
    }
  }

  /** The entries of matching lines when no field is extracted: each line
      followed by its key suffix. */
  function Decorated(lines: seq<string>, q: GrepQuery): (r: seq<string>)
    ensures |r| == |lines|
    ensures forall j :: 0 <= j < |lines| ==> r[j] == lines[j] + Suffix(lines[j], q)
  {
    seq(|lines|, j requires 0 <= j < |lines| => lines[j] + Suffix(lines[j], q))
  }

  /** With neither a limit nor field extraction, `LogViewGrep` reads every
      file and collects every matching line of every file, in reading
      order, each followed by its key suffix. */
  lemma GrepUnlimited(files: seq<seq<string>>, q: GrepQuery)
    requires q.max <= 0 && q.filter <= 0
    ensures Grepped(files, q) == Grep(Decorated(Filter(Flatten(files), q.isMatch), q), false)
  {
    var entry := EntryOf(q);
    forall line ensures entry(line) == Success(line + Suffix(line, q)) {
      FormattedWithoutFilter(line, q);
    }
    GrepTotal(files, q.isMatch, entry, q.max);
    var kept := Filter(Flatten(files), q.isMatch);
    assert Entries(kept, entry) == Decorated(kept, q);
  }

  /** With no limit, and with field `filter` present on every matching line
      when a field is extracted, `LogViewGrep` reads every file and collects
      one entry per matching line of every file, in reading order. */
  lemma GrepWithoutFailure(files: seq<seq<string>>, q: GrepQuery)
    requires q.max <= 0
    requires q.filter > 0 ==>
               forall line :: line in Flatten(files) && q.isMatch(line) ==> CsvFilter(line, q.filter).Success?
    ensures var kept := Filter(Flatten(files), q.isMatch);
            var g := Grepped(files, q);
            && !g.stopped && |g.output| == |kept|
            && forall j :: 0 <= j < |kept| ==>
                 FormattedMatch(kept[j], q).Success? && g.output[j] == FormattedMatch(kept[j], q).value
  {
    var entry := EntryOf(q);
    forall line | line in Flatten(files) && q.isMatch(line) ensures entry(line).Success? {
      if q.filter <= 0 {
        FormattedWithoutFilter(line, q);
      }
    }
    GrepTotal(files, q.isMatch, entry, q.max);
  }

  // ----- Sorting with an abstract comparison ----------------------------------

  ghost predicate TotalPreorder(leq: (string, string) -> bool)
  {
    && (forall a, b :: leq(a, b) || leq(b, a))
    && (forall a, b, c :: leq(a, b) && leq(b, c) ==> leq(a, c))
  }

  ghost predicate SortedBy(xs: seq<string>, leq: (string, string) -> bool)
  {
    forall i, j :: 0 <= i < j < |xs| ==> leq(xs[i], xs[j])
  }

  function Insert(x: string, xs: seq<string>, leq: (string, string) -> bool): (r: seq<string>)
    requires TotalPreorder(leq) && SortedBy(xs, leq)
    ensures SortedBy(r, leq)
    ensures multiset(r) == multiset(xs) + multiset{x}
  {
    if xs == [] then [x]
    else if leq(x, xs[0]) then
      assert forall j :: 0 <= j < |xs| ==> leq(x, xs[j]);
      [x] + xs
    else
      assert xs == [xs[0]] + xs[1..];
      var rest := Insert(x, xs[1..], leq);
      InsertedAbove(xs[0], x, xs[1..], rest, leq);
      [xs[0]] + rest
  }

  /** A lower bound of `x` and of every element of `tail` is a lower bound
      of every element of a permutation of `tail` plus `x`. */
  lemma InsertedAbove(y: string, x: string, tail: seq<string>, rest: seq<string>,
                      leq: (string, string) -> bool)
    requires leq(y, x) && forall j :: 0 <= j < |tail| ==> leq(y, tail[j])
    requires multiset(rest) == multiset(tail) + multiset{x}
    ensures forall j :: 0 <= j < |rest| ==> leq(y, rest[j])
  {
    forall j | 0 <= j < |rest| ensures leq(y, rest[j]) {
      assert rest[j] in multiset(rest);
      if rest[j] != x {
        assert rest[j] in multiset(tail);
        assert rest[j] in tail;
      }
    }
  }

  /** `List<string>.Sort()`: a permutation of `xs` that `leq` orders. */
  function Sort(xs: seq<string>, leq: (string, string) -> bool): (r: seq<string>)
    requires TotalPreorder(leq)
    ensures SortedBy(r, leq)
    ensures multiset(r) == multiset(xs)
  {
    if xs == [] then []
    else
      assert xs == [xs[0]] + xs[1..];
      Insert(xs[0], Sort(xs[1..], leq), leq)
  }

  // ----- LogViewGrep: the algorithm ---------------------------------------------

  /** The loop over `keys` that appends each non-empty key's group value. */
  method AppendKeys(add: string, line: string, keys: seq<string>, group: (string, string) -> string)
    returns (s: string)
    ensures s == add + KeySuffix(line, keys, group)
  {
    s := add;
    for i := 0 to |keys|
      invariant s == add + KeySuffix(line, keys[..i], group)
    {
      assert keys[..i + 1][..i] == keys[..i];
      var key := keys[i];
      if key != "" {
        s := s + "," + group(line, key);
      }
    }
    assert keys[..|keys|] == keys;
  }

  /** The entry for one matching line (the body of the `match.Success`
      branch). */
  method FormatMatch(line: string, q: GrepQuery) returns (add: Result<string>)
    ensures add == FormattedMatch(line, q)
    ensures q.filter > 0 ==> (add.Success? <==> CsvFilter(line, q.filter).Success?)
  {
    var s: string;
    if q.filter > 0 {
      var field := CsvFilter(line, q.filter);
      if field.Failure? {
        return field;
      }
      s := field.value;
    } else {
      s := line;
    }
    if q.keys.Some? {
      s := AppendKeys(s, line, q.keys.value, q.group);
    } else {
      assert s == s + Suffix(line, q);
    }
    add := Success(s);
  }

  /** The loop over one file's lines. */
  method ReadMatches(lines: seq<string>, q: GrepQuery) returns (added: seq<string>, failed: bool)
    ensures ScanLines(lines, q.isMatch, EntryOf(q)) == Scan(added, failed)
  {
    added, failed := [], false;
    var j := 0;
    while j < |lines|
      invariant 0 <= j <= |lines|
      invariant ScanLines(lines[..j], q.isMatch, EntryOf(q)) == Scan(added, false)
    {
      var line := lines[j];
      ScanNext(lines, j, q.isMatch, EntryOf(q));
      if q.isMatch(line) {
        var add := FormatMatch(line, q);
        assert EntryOf(q)(line) == add;
        if add.Failure? {
          failed := true;
          ScanStopsAt(lines, j, q.isMatch, EntryOf(q));
          return;
        }
        added := added + [add.value];
      }
      j := j + 1;
    }
    assert lines[..j] == lines;
  }

  /** The loop over the files: reads them in order and stops after a failed
      scan or at the end of the file that brings the count to `max`. */
  method ReadFiles(files: seq<seq<string>>, q: GrepQuery) returns (output: seq<string>)
    ensures output == Grepped(files, q).output
  {
    output := [];
    var counter := 0;
    var fileCounter := 0;
    while fileCounter < |files|
      invariant 0 <= fileCounter <= |files|
      invariant counter == |output|
      invariant Grepped(files[..fileCounter], q) == Grep(output, false)
    {
      var added, failed := ReadMatches(files[fileCounter], q);
      GrepNext(files, fileCounter, q.isMatch, EntryOf(q), q.max);
      output := output + added;
      counter := counter + |added|;
      if failed || (q.max > 0 && counter >= q.max) {
        // A CsvFilter exception is caught below the loop; the limit check
        // sets fileCounter past the end and breaks.
        GrepStopsAt(files, fileCounter, q.isMatch, EntryOf(q), q.max);
        return;
      }
      fileCounter := fileCounter + 1;
    }
    assert files[..fileCounter] == files;
  }

  /** `LogViewGrep(pattern, max, reverse, filter, keys)` over the contents
      of the log files: the collected entries, sorted, and in descending
      order when `reverse` (which also reverses the file order up front). */
  method LogViewGrep(logFiles: seq<seq<string>>, isMatch: string -> bool,
                     group: (string, string) -> string, leq: (string, string) -> bool,
                     max: int, reverse: bool, filter: int, keys: Option<seq<string>>)
    returns (r: seq<string>)
    requires TotalPreorder(leq)
    ensures var files := if reverse then Reversed(logFiles) else logFiles;
            multiset(r) == multiset(Grepped(files, GrepQuery(isMatch, group, max, filter, keys)).output)
    ensures !reverse ==> SortedBy(r, leq)
    ensures reverse ==> forall i, j :: 0 <= i < j < |r| ==> leq(r[j], r[i])
  {
    var q := GrepQuery(isMatch, group, max, filter, keys);
    var files := logFiles;
    if reverse {
      files := Reversed(files);
    }
    var output := ReadFiles(files, q);
    output := Sort(output, leq);
    if reverse {
      ReversedPermutes(output);
      output := Reversed(output);
    }
    r := output;
  }
}
