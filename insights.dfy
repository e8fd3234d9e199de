/**
 * The Insights page: symptom logs grouped by calendar day, counted by
 * severity and by symptom name, the most logged symptom, a severity
 * breakdown and one list per day, newest day first.
 */
module Insights {
  import opened Wrappers
  import opened Strings
  import opened Sorting
  import opened JsObjects
  import opened JsDates

  /**
   * A symptom log as the server sends it; any field may be missing. The
   * fields are, in the server's names, `id`, `symptomname`, `symptom_name`,
   * `severity`, `created_at`, `date` and `logged_at`.
   */
  datatype LogEntry = LogEntry(
    id: Option<int>,
    symptomname: Option<string>,
    symptomName: Option<string>,
    severity: Option<string>,
    createdAt: Option<string>,
    date: Option<string>,
    loggedAt: Option<string>)

  /**
   * The host's reading of a date string: the time value of `new Date(str)` in
   * milliseconds, or None when it is NaN. It depends on the host's parser and
   * time zone, so it is a parameter.
   */
  type DateParser = string -> Option<int>

  // ---------------------------------------------------------------------------
  // Day keys
  // ---------------------------------------------------------------------------

  /** The date a log is filed under: `created_at ?? date ?? logged_at`. */
  function DateSource(e: LogEntry): (r: Option<string>)
    ensures r.Some? <==> e.createdAt.Some? || e.date.Some? || e.loggedAt.Some?
  {
    Coalesce(e.createdAt, Coalesce(e.date, e.loggedAt))
  }

  /**
   * `formatDateKey`: nothing for a missing or empty string, the string itself
   * when it is not a date, otherwise the calendar part of its ISO form.
   */
  function FormatDateKey(str: Option<string>, parse: DateParser): string {
    match str
    case None => ""
    case Some(s) =>
      if s == "" then ""
      else match parse(s)
        case None => s
        case Some(t) => Split(IsoString(t), 'T')[0]
  }

  /** The key of a log in `byDate`: its formatted date, or 'no-date' when that is empty. */
  function DayKey(e: LogEntry, parse: DateParser): string {
    var k := FormatDateKey(DateSource(e), parse);
    if k == "" then "no-date" else k
  }

  function DayKeyOf(parse: DateParser): LogEntry -> string {
    e => DayKey(e, parse)
  }

  /** A log whose date the host reads is filed under the UTC day of that time. */
  lemma DayKeyOfTime(e: LogEntry, parse: DateParser)
    requires DateSource(e).Some? && DateSource(e).value != "" && parse(DateSource(e).value).Some?
    ensures DayKey(e, parse) == IsoDay(parse(DateSource(e).value).value)
  {
    IsoDayOfIsoString(parse(DateSource(e).value).value);
  }

  /** Two logs with readable dates share a day key exactly when their times fall on the same UTC day. */
  lemma SameDayKey(e1: LogEntry, e2: LogEntry, parse: DateParser)
    requires DateSource(e1).Some? && DateSource(e1).value != "" && parse(DateSource(e1).value).Some?
    requires DateSource(e2).Some? && DateSource(e2).value != "" && parse(DateSource(e2).value).Some?
    ensures var t1, t2 := parse(DateSource(e1).value).value, parse(DateSource(e2).value).value;
      DayKey(e1, parse) == DayKey(e2, parse) <==> t1 / MsPerDay == t2 / MsPerDay
  {
    DayKeyOfTime(e1, parse);
    DayKeyOfTime(e2, parse);
    IsoDayInjective(parse(DateSource(e1).value).value, parse(DateSource(e2).value).value);
  }

  /**
   * A log lands in the 'no-date' group when it has no date, an empty one, or
   * the literal date string 'no-date' that the host cannot read.
   */
  lemma NoDateKey(e: LogEntry, parse: DateParser)
    ensures DayKey(e, parse) == "no-date" <==>
      DateSource(e).None? || DateSource(e).value == ""
      || (DateSource(e).value == "no-date" && parse("no-date").None?)
  {
    var src := DateSource(e);
    if src.Some? && src.value != "" && parse(src.value).Some? {
      DayKeyOfTime(e, parse);
      var day := IsoDay(parse(src.value).value);
      assert day[0] != "no-date"[0];
    }
  }

  // ---------------------------------------------------------------------------
  // Grouping and counting
  // ---------------------------------------------------------------------------

  /** The logs whose key is `k`, in log order. */
  function Matching(logs: seq<LogEntry>, keyOf: LogEntry -> string, k: string): (r: seq<LogEntry>)
    ensures |r| <= |logs|
  {
    if logs == [] then []
    else
      var last := logs[|logs| - 1];
      Matching(logs[..|logs| - 1], keyOf, k) + (if keyOf(last) == k then [last] else [])
  }

  /** A group holds only logs of the input that have its key. */
  lemma {:induction false} MatchingMembers(logs: seq<LogEntry>, keyOf: LogEntry -> string, k: string)
    ensures forall x :: x in Matching(logs, keyOf, k) ==> x in logs && keyOf(x) == k
  {
    if logs != [] {
      MatchingMembers(logs[..|logs| - 1], keyOf, k);
    }
  }

  /** The distinct keys of the logs, in the order of their first occurrence. */
  function KeysInOrder(logs: seq<LogEntry>, keyOf: LogEntry -> string): (r: seq<string>)
    ensures |r| <= |logs|
  {
    if logs == [] then []
    else
      var ks := KeysInOrder(logs[..|logs| - 1], keyOf);
      var k := keyOf(logs[|logs| - 1]);
      if k in ks then ks else ks + [k]
  }

  /** The group keys are distinct, and a key is listed exactly when its group is not empty. */
  lemma {:induction false} KeysInOrderFacts(logs: seq<LogEntry>, keyOf: LogEntry -> string)
    ensures Distinct(KeysInOrder(logs, keyOf))
    ensures forall k :: k in KeysInOrder(logs, keyOf) <==> Matching(logs, keyOf, k) != []
  {
    if logs != [] {
      KeysInOrderFacts(logs[..|logs| - 1], keyOf);
    }
  }

  /** Grouping a concatenation groups each part: within a group, logs keep their order. */
  lemma {:induction false} MatchingAppend(xs: seq<LogEntry>, ys: seq<LogEntry>, keyOf: LogEntry -> string, k: string)
    ensures Matching(xs + ys, keyOf, k) == Matching(xs, keyOf, k) + Matching(ys, keyOf, k)
    decreases |ys|
  {
    if ys != [] {
      var init, last := ys[..|ys| - 1], ys[|ys| - 1];
      MatchingAppend(xs, init, keyOf, k);
      assert (xs + ys)[..|xs + ys| - 1] == xs + init;
      assert (xs + ys)[|xs + ys| - 1] == last;
      var part := if keyOf(last) == k then [last] else [];
      assert Matching(xs + ys, keyOf, k) == Matching(xs + init, keyOf, k) + part;
      assert Matching(ys, keyOf, k) == Matching(init, keyOf, k) + part;
      assert Matching(xs + ys, keyOf, k) == (Matching(xs, keyOf, k) + Matching(init, keyOf, k)) + part;
    } else {
      assert xs + ys == xs;
    }
  }

  /** Every log is in the group of its own key, after the earlier logs with that key. */
  lemma InOwnGroup(logs: seq<LogEntry>, keyOf: LogEntry -> string, i: nat)
    requires i < |logs|
    ensures var g := Matching(logs, keyOf, keyOf(logs[i]));
      var before := |Matching(logs[..i], keyOf, keyOf(logs[i]))|;
      before < |g| && g[before] == logs[i]
  {
    var k := keyOf(logs[i]);
    assert logs == logs[..i] + [logs[i]] + logs[i + 1..];
    MatchingAppend(logs[..i] + [logs[i]], logs[i + 1..], keyOf, k);
    MatchingAppend(logs[..i], [logs[i]], keyOf, k);
    assert Matching([logs[i]], keyOf, k) == [logs[i]];
  }

  /**
   * The `byDate` reduction, for any key: a list per key, created when the
   * key is first met, each log appended to the list of its key.
   */
  method GroupBy(logs: seq<LogEntry>, keyOf: LogEntry -> string)
    returns (groups: map<string, seq<LogEntry>>, created: seq<string>)
    ensures created == KeysInOrder(logs, keyOf)
    ensures forall k :: k in groups <==> k in created
    ensures forall k :: k in groups ==> groups[k] == Matching(logs, keyOf, k)
  {
    groups, created := map[], [];
    for i := 0 to |logs|
      invariant created == KeysInOrder(logs[..i], keyOf)
      invariant forall k :: k in groups <==> k in created
      invariant forall k :: k in groups ==> groups[k] == Matching(logs[..i], keyOf, k)
    {
      GroupStep(logs, keyOf, i, groups, created);
      var entry := logs[i];
      var key := keyOf(entry);
      if key !in groups {
        groups := groups[key := []];
        created := created + [key];
      }
      groups := groups[key := groups[key] + [entry]];
    }
    assert logs[..|logs|] == logs;
  }

  /** One step of the grouping reduction keeps every group equal to the logs with its key. */
  lemma GroupStep(logs: seq<LogEntry>, keyOf: LogEntry -> string, i: nat,
                  groups: map<string, seq<LogEntry>>, created: seq<string>)
    requires i < |logs|
    requires created == KeysInOrder(logs[..i], keyOf)
    requires forall k :: k in groups <==> k in created
    requires forall k :: k in groups ==> groups[k] == Matching(logs[..i], keyOf, k)
    ensures var key := keyOf(logs[i]);
      var groups' := groups[key := (if key in groups then groups[key] else []) + [logs[i]]];
      var created' := if key in groups then created else created + [key];
      && created' == KeysInOrder(logs[..i + 1], keyOf)
      && (forall k :: k in groups' <==> k in created')
      && (forall k :: k in groups' ==> groups'[k] == Matching(logs[..i + 1], keyOf, k))
  {
    var key := keyOf(logs[i]);
    PrefixStep(logs, keyOf, i);
    if key !in groups {
      KeysInOrderFacts(logs[..i], keyOf);
      assert Matching(logs[..i], keyOf, key) == [];
    }
  }

  /** One more log: each group grows by it or stays, and its key is added if new. */
  lemma PrefixStep(logs: seq<LogEntry>, keyOf: LogEntry -> string, i: nat)
    requires i < |logs|
    ensures forall k :: (Matching(logs[..i + 1], keyOf, k)
      == Matching(logs[..i], keyOf, k) + (if keyOf(logs[i]) == k then [logs[i]] else []))
    ensures var ks := KeysInOrder(logs[..i], keyOf);
      KeysInOrder(logs[..i + 1], keyOf) == if keyOf(logs[i]) in ks then ks else ks + [keyOf(logs[i])]
  {
    assert logs[..i + 1][..i] == logs[..i];
  }

  /** The severity counted for a log: `String(entry.severity ?? '')`. */
  function SeverityKey(e: LogEntry): string {
    e.severity.GetOr("")
  }

  /** The name counted for a log: `symptomname ?? symptom_name ?? 'Other'`. */
  function SymptomKey(e: LogEntry): string {
    Coalesce(e.symptomname, e.symptomName).GetOr("Other")
  }

  /**
   * The `severityCounts` and `symptomCounts` reductions: a count per key,
   * created at 1 when the key is first met and incremented after.
   */
  method Tally(logs: seq<LogEntry>, keyOf: LogEntry -> string)
    returns (counts: map<string, nat>, created: seq<string>)
    ensures created == KeysInOrder(logs, keyOf)
    ensures forall k :: k in counts <==> k in created
    ensures forall k :: k in counts ==> counts[k] == |Matching(logs, keyOf, k)|
  {
    counts, created := map[], [];
    for i := 0 to |logs|
      invariant created == KeysInOrder(logs[..i], keyOf)
      invariant forall k :: k in counts <==> k in created
      invariant forall k :: k in counts ==> counts[k] == |Matching(logs[..i], keyOf, k)|
    {
      TallyStep(logs, keyOf, i, counts, created);
      var key := keyOf(logs[i]);
      var before := if key in counts then counts[key] else 0;
      if key !in counts {
        created := created + [key];
      }
      counts := counts[key := before + 1];
    }
    assert logs[..|logs|] == logs;
  }

  /** One step of the counting reduction keeps the counts equal to the group sizes. */
  lemma TallyStep(logs: seq<LogEntry>, keyOf: LogEntry -> string, i: nat, counts: map<string, nat>, created: seq<string>)
    requires i < |logs|
    requires created == KeysInOrder(logs[..i], keyOf)
    requires forall k :: k in counts <==> k in created
    requires forall k :: k in counts ==> counts[k] == |Matching(logs[..i], keyOf, k)|
    ensures var key := keyOf(logs[i]);
      var counts' := counts[key := (if key in counts then counts[key] else 0) + 1];
      var created' := if key in counts then created else created + [key];
      && created' == KeysInOrder(logs[..i + 1], keyOf)
      && (forall k :: k in counts' <==> k in created')
      && (forall k :: k in counts' ==> counts'[k] == |Matching(logs[..i + 1], keyOf, k)|)
  {
    var key := keyOf(logs[i]);
    PrefixStep(logs, keyOf, i);
    if key !in counts {
      KeysInOrderFacts(logs[..i], keyOf);
      assert Matching(logs[..i], keyOf, key) == [];
    }
  }

  // ---------------------------------------------------------------------------
  // Every log counted once
  // ---------------------------------------------------------------------------

  function Sum<T>(xs: seq<T>, f: T -> int): int {
    if xs == [] then 0 else f(xs[0]) + Sum(xs[1..], f)
  }

  lemma {:induction false} SumAppend<T>(xs: seq<T>, ys: seq<T>, f: T -> int)
    ensures Sum(xs + ys, f) == Sum(xs, f) + Sum(ys, f)
  {
    if xs != [] {
      SumAppend(xs[1..], ys, f);
      assert (xs + ys)[0] == xs[0] && (xs + ys)[1..] == xs[1..] + ys;
      assert Sum(xs + ys, f) == f(xs[0]) + Sum(xs[1..] + ys, f);
    } else {
      assert xs + ys == ys;
    }
  }

  lemma {:induction false} SumAgree<T>(xs: seq<T>, f: T -> int, g: T -> int)
    requires forall x :: x in xs ==> f(x) == g(x)
    ensures Sum(xs, f) == Sum(xs, g)
  {
    if xs != [] {
      SumAgree(xs[1..], f, g);
    }
  }

  /** Rearranging the terms does not change a sum. */
  lemma {:induction false} SumPermutation<T>(xs: seq<T>, ys: seq<T>, f: T -> int)
    requires multiset(xs) == multiset(ys)
    ensures Sum(xs, f) == Sum(ys, f)
    decreases |xs|
  {
    if xs != [] {
      var x, rest := xs[0], xs[1..];
      assert xs == [x] + rest;
      assert x in multiset(ys);
      var i :| 0 <= i < |ys| && ys[i] == x;
      var others := ys[..i] + ys[i + 1..];
      assert ys == ys[..i] + [x] + ys[i + 1..];
      assert multiset(ys) == multiset(ys[..i]) + multiset{x} + multiset(ys[i + 1..]);
      assert multiset(others) == multiset(ys[..i]) + multiset(ys[i + 1..]);
      assert multiset(xs) == multiset{x} + multiset(rest);
      assert multiset(rest) == multiset(xs) - multiset{x};
      assert multiset(others) == multiset(ys) - multiset{x};
      SumPermutation(rest, others, f);
      SumAppend(ys[..i] + [x], ys[i + 1..], f);
      SumAppend(ys[..i], [x], f);
      SumAppend(ys[..i], ys[i + 1..], f);
    }
  }

  /** The size of every group, as a function of the key. */
  function Sizes(logs: seq<LogEntry>, keyOf: LogEntry -> string): string -> int {
    k => |Matching(logs, keyOf, k)|
  }

  /** Adding one to a single term of distinct keys adds one to the sum. */
  lemma {:induction false} SumBump(ks: seq<string>, f: string -> int, g: string -> int, k: string)
    requires Distinct(ks) && k in ks
    requires forall x :: x in ks ==> g(x) == f(x) + (if x == k then 1 else 0)
    ensures Sum(ks, g) == Sum(ks, f) + 1
  {
    var rest := ks[1..];
    assert Distinct(rest) by {
      forall i, j | 0 <= i < j < |rest| ensures rest[i] != rest[j] {
        assert rest[i] == ks[i + 1] && rest[j] == ks[j + 1];
      }
    }
    if ks[0] == k {
      assert k !in rest;
      SumAgree(rest, f, g);
    } else {
      SumBump(rest, f, g, k);
    }
  }

  /** The groups' sizes add up to the number of logs: each log is counted once. */
  lemma {:induction false} GroupSizesSum(logs: seq<LogEntry>, keyOf: LogEntry -> string)
    ensures Sum(KeysInOrder(logs, keyOf), Sizes(logs, keyOf)) == |logs|
  {
    if logs != [] {
      var init := logs[..|logs| - 1];
      var k := keyOf(logs[|logs| - 1]);
      var ks0 := KeysInOrder(init, keyOf);
      var f0, f := Sizes(init, keyOf), Sizes(logs, keyOf);
      GroupSizesSum(init, keyOf);
      KeysInOrderFacts(init, keyOf);
      assert forall x :: f(x) == f0(x) + (if x == k then 1 else 0);
      if k in ks0 {
        SumBump(ks0, f0, f, k);
      } else {
        assert f0(k) == 0;
        SumAppend(ks0, [k], f);
        SumAgree(ks0, f0, f);
      }
    }
  }

  /** Sums that agree term by term are equal. */
  lemma {:induction false} SumPointwise<A, B>(xs: seq<A>, ys: seq<B>, f: A -> int, g: B -> int)
    requires |xs| == |ys| && forall i :: 0 <= i < |xs| ==> f(xs[i]) == g(ys[i])
    ensures Sum(xs, f) == Sum(ys, g)
  {
    if xs != [] {
      SumPointwise(xs[1..], ys[1..], f, g);
    }
  }

  // ---------------------------------------------------------------------------
  // The days, newest first
  // ---------------------------------------------------------------------------

  /** The comparator of `sortedDates`: 'no-date' after every other key, the rest by descending `localeCompare`. */
  function NewestFirst(): (string, string) -> int {
    (a, b) => if a == "no-date" then 1 else if b == "no-date" then -1 else LocaleCompare(b, a)
  }

  /** `Object.keys(byDate).sort(…)` for the day keys created in the order `created`. */
  function SortedDates(created: seq<string>): seq<string> {
    Sort(OwnKeys(created), NewestFirst())
  }

  lemma NewestFirstConsistent(keys: seq<string>)
    ensures Consistent(keys, NewestFirst())
  {
  }

  /**
   * Every day key is listed once, each after the keys that are greater in
   * code-point order, and 'no-date' only last.
   */
  lemma SortedDatesOrder(created: seq<string>)
    requires Distinct(created)
    ensures var r := SortedDates(created);
      && multiset(r) == multiset(created)
      && Distinct(r)
      && forall i :: 0 <= i < |r| - 1 ==> r[i] != "no-date" && (r[i + 1] == "no-date" || LexLess(r[i + 1], r[i]))
  {
    var keys := OwnKeys(created);
    OwnKeysOrder(created);
    NewestFirstConsistent(keys);
    SortSorted(keys, NewestFirst());
    var r := SortedDates(created);
    DistinctPermutation(keys, r);
    forall i | 0 <= i < |r| - 1
      ensures r[i] != "no-date" && (r[i + 1] == "no-date" || LexLess(r[i + 1], r[i]))
    {
      assert NewestFirst()(r[i], r[i + 1]) <= 0;
      assert r[i] != r[i + 1];
    }
  }

  // ---------------------------------------------------------------------------
  // Counts: the most logged symptom and the severity breakdown
  // ---------------------------------------------------------------------------

  /** `Object.entries(counts)` of an object whose keys are listed in the order `keys`. */
  function Entries(keys: seq<string>, count: string -> int): (r: seq<(string, int)>)
    ensures |r| == |keys|
    ensures forall i :: 0 <= i < |r| ==> r[i] == (keys[i], count(keys[i]))
  {
    if keys == [] then [] else [(keys[0], count(keys[0]))] + Entries(keys[1..], count)
  }

  function CountOf(entry: (string, int)): int {
    entry.1
  }

  /** The entries of the counts of the logs by `keyOf`, as `Object.entries` lists them. */
  function TallyEntries(logs: seq<LogEntry>, keyOf: LogEntry -> string): seq<(string, int)> {
    Entries(OwnKeys(KeysInOrder(logs, keyOf)), Sizes(logs, keyOf))
  }

  /** `entries.sort((a, b) => b[1] - a[1])[0]`: undefined when there is no entry. */
  function TopEntry(entries: seq<(string, int)>): Option<(string, int)> {
    if entries == [] then None else Some(Sort(entries, ByKeyDescending(CountOf))[0])
  }

  /** Entries listed by distinct keys are distinct. */
  lemma EntriesDistinct(keys: seq<string>, count: string -> int)
    requires Distinct(keys)
    ensures Distinct(Entries(keys, count))
  {
    var r := Entries(keys, count);
    forall i, j | 0 <= i < j < |r| ensures r[i] != r[j] {
      assert r[i].0 == keys[i] && r[j].0 == keys[j];
    }
  }

  /**
   * 'Most logged' is shown exactly when there are logs; it names a symptom
   * logged at least as often as any other, the first such symptom in
   * `Object.entries` order, with its count.
   */
  lemma MostLogged(logs: seq<LogEntry>, keyOf: LogEntry -> string)
    ensures var entries := TallyEntries(logs, keyOf);
      var top := TopEntry(entries);
      && (top.None? <==> logs == [])
      && (top.Some? ==>
        && top.value == entries[FirstMaxIndex(entries, CountOf)]
        && top.value.1 == |Matching(logs, keyOf, top.value.0)|
        && forall k :: |Matching(logs, keyOf, k)| <= top.value.1)
  {
    var entries := TallyEntries(logs, keyOf);
    TallyEntriesEmpty(logs, keyOf);
    if logs != [] {
      SortDescendingHead(entries, CountOf);
      forall k ensures |Matching(logs, keyOf, k)| <= entries[FirstMaxIndex(entries, CountOf)].1 {
        TallyBelowTop(logs, keyOf, k);
      }
    }
  }

  /** There are entries exactly when there are logs. */
  lemma TallyEntriesEmpty(logs: seq<LogEntry>, keyOf: LogEntry -> string)
    ensures TallyEntries(logs, keyOf) == [] <==> logs == []
  {
    var created := KeysInOrder(logs, keyOf);
    KeysInOrderFacts(logs, keyOf);
    var keys := OwnKeys(created);
    OwnKeysOrder(created);
    if logs != [] {
      var k := keyOf(logs[|logs| - 1]);
      InOwnGroup(logs, keyOf, |logs| - 1);
      assert k in multiset(keys);
    } else {
      assert multiset(keys) == multiset{};
    }
  }

  /** No key is counted more often than the first entry with the greatest count. */
  lemma TallyBelowTop(logs: seq<LogEntry>, keyOf: LogEntry -> string, k: string)
    requires logs != []
    ensures var entries := TallyEntries(logs, keyOf);
      entries != [] && |Matching(logs, keyOf, k)| <= entries[FirstMaxIndex(entries, CountOf)].1
  {
    TallyEntriesEmpty(logs, keyOf);
    var created := KeysInOrder(logs, keyOf);
    KeysInOrderFacts(logs, keyOf);
    var keys := OwnKeys(created);
    var entries := TallyEntries(logs, keyOf);
    var m := FirstMaxIndex(entries, CountOf);
    if k in created {
      OwnKeysOrder(created);
      assert k in multiset(keys);
      var j := PositionOf(keys, k);
      assert entries[j] == (k, Sizes(logs, keyOf)(k));
      assert CountOf(entries[j]) <= CountOf(entries[m]);
    }
  }

  const SeverityLabels: map<string, string> :=
    map["1" := "Mild", "2" := "Moderate", "3" := "Moderate–strong", "4" := "Strong", "5" := "Very strong"]

  /** The label of a severity in the breakdown: its name, or 'Level ' and the value. */
  function BreakdownLabel(sev: string): string {
    if sev in SeverityLabels then SeverityLabels[sev] else "Level " + sev
  }

  /** Each sorted entry as a breakdown row: its label and its count. */
  function LabelRows(sorted: seq<(string, int)>): (rows: seq<(string, int)>)
    ensures |rows| == |sorted|
    ensures forall i :: 0 <= i < |rows| ==> rows[i] == (BreakdownLabel(sorted[i].0), sorted[i].1)
  {
    if sorted == [] then []
    else [(BreakdownLabel(sorted[0].0), sorted[0].1)] + LabelRows(sorted[1..])
  }

  /** The severity breakdown: label and count, highest count first. */
  function SeverityRows(entries: seq<(string, int)>): seq<(string, int)> {
    LabelRows(Sort(entries, ByKeyDescending(CountOf)))
  }

  /**
   * The breakdown has a row per value that occurs, highest count first, and
   * its counts add up to the number of logs, so the bars' widths add up to
   * 100%.
   */
  lemma SeverityBreakdown(logs: seq<LogEntry>, keyOf: LogEntry -> string)
    ensures var rows := SeverityRows(TallyEntries(logs, keyOf));
      && |rows| == |KeysInOrder(logs, keyOf)|
      && NonIncreasing(rows)
      && Sum(rows, CountOf) == |logs|
  {
    TallyEntriesDistinct(logs, keyOf);
    TallyEntriesLength(logs, keyOf);
    TallyEntriesSum(logs, keyOf);
    RowsOfEntries(TallyEntries(logs, keyOf));
  }

  /** The rows of distinct entries: one each, highest count first, the same total. */
  lemma RowsOfEntries(entries: seq<(string, int)>)
    requires Distinct(entries)
    ensures var rows := SeverityRows(entries);
      && |rows| == |entries|
      && NonIncreasing(rows)
      && Sum(rows, CountOf) == Sum(entries, CountOf)
  {
    var sorted := Sort(entries, ByKeyDescending(CountOf));
    var rows := SeverityRows(entries);
    assert rows == LabelRows(sorted);
    CountsDescending(entries);
    forall i | 0 <= i < |rows| - 1 ensures rows[i].1 >= rows[i + 1].1 {
      assert rows[i].1 == sorted[i].1 && rows[i + 1].1 == sorted[i + 1].1;
    }
    SumPointwise(rows, sorted, CountOf, CountOf);
    SumPermutation(sorted, entries, CountOf);
  }

  lemma TallyEntriesLength(logs: seq<LogEntry>, keyOf: LogEntry -> string)
    ensures |TallyEntries(logs, keyOf)| == |KeysInOrder(logs, keyOf)|
  {
    var created := KeysInOrder(logs, keyOf);
    KeysInOrderFacts(logs, keyOf);
    OwnKeysOrder(created);
    assert |multiset(OwnKeys(created))| == |multiset(created)|;
  }

  lemma TallyEntriesDistinct(logs: seq<LogEntry>, keyOf: LogEntry -> string)
    ensures Distinct(TallyEntries(logs, keyOf))
  {
    KeysInOrderFacts(logs, keyOf);
    OwnKeysOrder(KeysInOrder(logs, keyOf));
    EntriesDistinct(OwnKeys(KeysInOrder(logs, keyOf)), Sizes(logs, keyOf));
  }

  predicate NonIncreasing(rows: seq<(string, int)>) {
    forall i :: 0 <= i < |rows| - 1 ==> rows[i].1 >= rows[i + 1].1
  }

  /** Sorted by descending count, distinct entries come with non-increasing counts. */
  lemma CountsDescending(entries: seq<(string, int)>)
    requires Distinct(entries)
    ensures NonIncreasing(Sort(entries, ByKeyDescending(CountOf)))
  {
    var cmp := ByKeyDescending(CountOf);
    var sorted := Sort(entries, cmp);
    assert Consistent(entries, cmp);
    SortSorted(entries, cmp);
    assert Sorted(sorted, cmp);
    forall i | 0 <= i < |sorted| - 1 ensures sorted[i].1 >= sorted[i + 1].1 {
      var x, y := sorted[i], sorted[i + 1];
      assert cmp(x, y) <= 0;
      assert cmp(x, y) == CountOf(y) - CountOf(x);
    }
  }

  /** The counts of the entries add up to the number of logs. */
  lemma TallyEntriesSum(logs: seq<LogEntry>, keyOf: LogEntry -> string)
    ensures Sum(TallyEntries(logs, keyOf), CountOf) == |logs|
  {
    var created := KeysInOrder(logs, keyOf);
    KeysInOrderFacts(logs, keyOf);
    var keys := OwnKeys(created);
    var sizes := Sizes(logs, keyOf);
    OwnKeysOrder(created);
    SumPointwise(TallyEntries(logs, keyOf), keys, CountOf, sizes);
    SumPermutation(keys, created, sizes);
    GroupSizesSum(logs, keyOf);
  }

  // ---------------------------------------------------------------------------
  // The per-day lists
  // ---------------------------------------------------------------------------

  /** A row of a day's list: the symptom's name and the severity shown beside it, if any. */
  datatype ListRow = ListRow(name: string, severity: Option<string>)

  /**
   * `symptomname ?? symptom_name ?? '—'` and
   * `SEVERITY_LABELS[String(severity)] ?? severity`: a known severity by
   * its name, another one as it is, a missing one not at all.
   */
  function ListRowOf(e: LogEntry): ListRow {
    var shown := match e.severity
      case None => None
      case Some(v) => Some(if v in SeverityLabels then SeverityLabels[v] else v);
    ListRow(Coalesce(e.symptomname, e.symptomName).GetOr("—"), shown)
  }

  function DayRows(entries: seq<LogEntry>): (rows: seq<ListRow>)
    ensures |rows| == |entries|
    ensures forall i :: 0 <= i < |rows| ==> rows[i] == ListRowOf(entries[i])
  {
    if entries == [] then [] else [ListRowOf(entries[0])] + DayRows(entries[1..])
  }

  /** One list per day key, each from the logs `group` gives for it. */
  function DayLists(dates: seq<string>, group: string -> seq<LogEntry>): (lists: seq<seq<ListRow>>)
    ensures |lists| == |dates|
    ensures forall i :: 0 <= i < |lists| ==> lists[i] == DayRows(group(dates[i]))
  {
    if dates == [] then [] else [DayRows(group(dates[0]))] + DayLists(dates[1..], group)
  }

  function GroupOf(logs: seq<LogEntry>, keyOf: LogEntry -> string): string -> seq<LogEntry> {
    k => Matching(logs, keyOf, k)
  }

  // ---------------------------------------------------------------------------
  // The page
  // ---------------------------------------------------------------------------

  /** What the page shows, apart from layout: the total, the days, the breakdown and the top symptom. */
  datatype Summary = Summary(
    total: nat,
    sortedDates: seq<string>,
    dayLists: seq<seq<ListRow>>,
    severityRows: seq<(string, int)>,
    topSymptom: Option<(string, int)>)

  /** The page's data defined from the logs alone. */
  function SummaryOf(logs: seq<LogEntry>, parse: DateParser): Summary {
    var dayKey := DayKeyOf(parse);
    var dates := SortedDates(KeysInOrder(logs, dayKey));
    Summary(
      |logs|, dates, DayLists(dates, GroupOf(logs, dayKey)),
      SeverityRows(TallyEntries(logs, SeverityKey)), TopEntry(TallyEntries(logs, SymptomKey)))
  }

  /** Looking a key up in `byDate`, with `|| []` for a missing one. */
  function GroupIn(byDate: map<string, seq<LogEntry>>): string -> seq<LogEntry> {
    k => if k in byDate then byDate[k] else []
  }

  /** Looking a key up in a count object, 0 for a missing one. */
  function CountIn(counts: map<string, nat>): string -> int {
    k => if k in counts then counts[k] else 0
  }

  /** The three reductions followed by the sorting and picking the page renders. */
  method Summarize(logs: seq<LogEntry>, parse: DateParser) returns (s: Summary)
    ensures s == SummaryOf(logs, parse)
  {
    var byDate, dayKeys := GroupBy(logs, DayKeyOf(parse));
    var severityCounts, severities := Tally(logs, SeverityKey);
    var symptomCounts, symptoms := Tally(logs, SymptomKey);
    var dates := SortedDates(dayKeys);
    var lists := DayLists(dates, GroupIn(byDate));
    var severityEntries := Entries(OwnKeys(severities), CountIn(severityCounts));
    var symptomEntries := Entries(OwnKeys(symptoms), CountIn(symptomCounts));
    ListsOfGroups(logs, DayKeyOf(parse), byDate);
    EntriesOfCounts(logs, SeverityKey, severityCounts);
    EntriesOfCounts(logs, SymptomKey, symptomCounts);
    s := Summary(|logs|, dates, lists, SeverityRows(severityEntries), TopEntry(symptomEntries));
  }

  /** The lists read from the grouped object are the lists of the groups. */
  lemma ListsOfGroups(logs: seq<LogEntry>, keyOf: LogEntry -> string, byDate: map<string, seq<LogEntry>>)
    requires forall k :: k in byDate <==> k in KeysInOrder(logs, keyOf)
    requires forall k :: k in byDate ==> byDate[k] == Matching(logs, keyOf, k)
    ensures var dates := SortedDates(KeysInOrder(logs, keyOf));
      DayLists(dates, GroupIn(byDate)) == DayLists(dates, GroupOf(logs, keyOf))
  {
    var created := KeysInOrder(logs, keyOf);
    var dates := SortedDates(created);
    OwnKeysPermutation(created);
    var a, b := DayLists(dates, GroupIn(byDate)), DayLists(dates, GroupOf(logs, keyOf));
    forall i | 0 <= i < |dates| ensures a[i] == b[i] {
      assert dates[i] in multiset(OwnKeys(created));
    }
  }

  /** The entries read from a count object are the entries of the counts. */
  lemma EntriesOfCounts(logs: seq<LogEntry>, keyOf: LogEntry -> string, counts: map<string, nat>)
    requires forall k :: k in counts <==> k in KeysInOrder(logs, keyOf)
    requires forall k :: k in counts ==> counts[k] == |Matching(logs, keyOf, k)|
    ensures Entries(OwnKeys(KeysInOrder(logs, keyOf)), CountIn(counts)) == TallyEntries(logs, keyOf)
  {
    var keys := OwnKeys(KeysInOrder(logs, keyOf));
    OwnKeysPermutation(KeysInOrder(logs, keyOf));
    EntriesAgree(keys, CountIn(counts), Sizes(logs, keyOf));
  }

  lemma EntriesAgree(keys: seq<string>, f: string -> int, g: string -> int)
    requires forall i :: 0 <= i < |keys| ==> f(keys[i]) == g(keys[i])
    ensures Entries(keys, f) == Entries(keys, g)
  {
    var a, b := Entries(keys, f), Entries(keys, g);
    assert forall i :: 0 <= i < |keys| ==> a[i] == b[i];
  }

  function RowCount(rows: seq<ListRow>): int {
    |rows|
  }

  /**
   * The day lists together show every log exactly once: each log's row is in
   * the list whose sorted date is that log's day key (the sorted dates are
   * distinct), and the lists hold as many rows in total as there are logs.
   */
  lemma DayListsCoverLogs(logs: seq<LogEntry>, parse: DateParser)
    ensures Sum(SummaryOf(logs, parse).dayLists, RowCount) == |logs|
    ensures var s := SummaryOf(logs, parse);
      forall i :: 0 <= i < |logs| ==>
        exists j :: 0 <= j < |s.sortedDates| && s.sortedDates[j] == DayKey(logs[i], parse)
          && ListRowOf(logs[i]) in s.dayLists[j]
  {
    forall i | 0 <= i < |logs|
      ensures var s := SummaryOf(logs, parse);
        exists j :: 0 <= j < |s.sortedDates| && s.sortedDates[j] == DayKey(logs[i], parse)
          && ListRowOf(logs[i]) in s.dayLists[j]
    {
      LogInDayList(logs, parse, i);
    }
    DayListsRowTotal(logs, parse);
  }

  /** The list of a log's own day shows that log's row. */
  lemma LogInDayList(logs: seq<LogEntry>, parse: DateParser, i: nat)
    requires i < |logs|
    ensures var s := SummaryOf(logs, parse);
      exists j :: 0 <= j < |s.sortedDates| && s.sortedDates[j] == DayKey(logs[i], parse)
        && ListRowOf(logs[i]) in s.dayLists[j]
  {
    var dayKey := DayKeyOf(parse);
    var created := KeysInOrder(logs, dayKey);
    var k := dayKey(logs[i]);
    var g := Matching(logs, dayKey, k);
    InOwnGroup(logs, dayKey, i);
    KeysInOrderFacts(logs, dayKey);
    assert k in created;
    var dates := SortedDates(created);
    SortedDatesOrder(created);
    assert k in multiset(dates);
    var j :| 0 <= j < |dates| && dates[j] == k;
    var lists := SummaryOf(logs, parse).dayLists;
    assert lists[j] == DayRows(g);
    var before := |Matching(logs[..i], dayKey, k)|;
    assert lists[j][before] == ListRowOf(logs[i]);
  }

  /** The lists hold as many rows in total as there are logs. */
  lemma DayListsRowTotal(logs: seq<LogEntry>, parse: DateParser)
    ensures Sum(SummaryOf(logs, parse).dayLists, RowCount) == |logs|
  {
    var dayKey := DayKeyOf(parse);
    var created := KeysInOrder(logs, dayKey);
    KeysInOrderFacts(logs, dayKey);
    var dates := SortedDates(created);
    var lists := SummaryOf(logs, parse).dayLists;
    OwnKeysOrder(created);
    SumPointwise(lists, dates, RowCount, Sizes(logs, dayKey));
    SumPermutation(dates, created, Sizes(logs, dayKey));
    GroupSizesSum(logs, dayKey);
  }
}
