/**
  The status aggregation of the dashboard page (app/main/dashboard/page.tsx): a list of
  vehicle records becomes six summary cards (running, stop, idle, never connected, offline
  and total), each with a count, a display name and a colour.

  Text follows JavaScript's string operations: `\s` is JavaScript's whitespace class,
  `toLowerCase` and `toUpperCase` are modelled on ASCII letters, and `\w` is ASCII
  letters, digits and the underscore.
 */
module Dashboard {
  import opened Wrappers

  /** A vehicle record reduced to `position.status.status`: None when any link of that path is absent. */
  datatype VehicleRecord = VehicleRecord(status: Option<string>)

  /** A summary card as the page renders it. */
  datatype Card = Card(key: string, name: string, count: nat, colorCode: string)

  /** One entry of the page's status map. */
  datatype Entry = Entry(status: string, count: nat)

  /** The statuses of the status map, in the order it is created with. */
  const StatusOrder: seq<string> := ["running", "stop", "idle", "never_connected", "offline", "total"]

  /** Index of "total" in StatusOrder; the five statuses before it are the buckets a record is counted in. */
  const TotalIndex := 5

  /** The statuses normalizeStatus returns as they are; every other status becomes "offline". */
  const KeptStatuses: seq<string> := ["running", "stop", "idle", "never_connected"]

  /** The status a record without one is given. */
  const UnknownStatus := "Unknown"

  const DefaultColor := "#6b7280"

  /** The colour of each status of a card. */
  const ColorTable: map<string, string> := map[
    "running" := "#22c55e",
    "stop" := "#ef4444",
    "idle" := "#a16207",
    "never_connected" := "#737373",
    "offline" := "#6b7280",
    "total" := "#3b82f6"
  ]

  // ---------------------------------------------------------------------------------------
  // JavaScript string operations

  /** A character of JavaScript's `\s` class. */
  predicate IsWhitespace(c: char)
  {
    || c in {' ', '\t', '\n', '\r', '\U{000B}', '\U{000C}', '\U{00A0}', '\U{1680}'}
    || ('\U{2000}' <= c <= '\U{200A}')
    || c in {'\U{2028}', '\U{2029}', '\U{202F}', '\U{205F}', '\U{3000}', '\U{FEFF}'}
  }

  predicate NoWhitespace(s: string)
  {
    forall i :: 0 <= i < |s| ==> !IsWhitespace(s[i])
  }

  /** `s` without its leading run of whitespace. */
  function DropWhitespace(s: string): (r: string)
    ensures |r| <= |s| && r == s[|s| - |r|..]
    ensures r == [] || !IsWhitespace(r[0])
    ensures forall i :: 0 <= i < |s| - |r| ==> IsWhitespace(s[i])
  {
    if s != [] && IsWhitespace(s[0]) then
      var r := DropWhitespace(s[1..]);
      assert forall i :: 1 <= i < |s| ==> s[i] == s[1..][i - 1];
      r
    else s
  }

  /** `s.replace(/\s+/g, sep)`: every maximal run of whitespace becomes one `sep`. */
  function ReplaceWhitespaceRuns(s: string, sep: char): (r: string)
    ensures !IsWhitespace(sep) ==> NoWhitespace(r)
    ensures NoWhitespace(s) ==> r == s
    decreases |s|
  {
    if s == [] then []
    else if IsWhitespace(s[0]) then [sep] + ReplaceWhitespaceRuns(DropWhitespace(s), sep)
    else [s[0]] + ReplaceWhitespaceRuns(s[1..], sep)
  }

  function LowerChar(c: char): char
  {
    if 'A' <= c <= 'Z' then (c as int + 32) as char else c
  }

  function UpperChar(c: char): char
  {
    if 'a' <= c <= 'z' then (c as int - 32) as char else c
  }

  /** `s.toLowerCase()`. */
  function ToLower(s: string): (r: string)
    ensures |r| == |s| && forall i :: 0 <= i < |s| ==> r[i] == LowerChar(s[i])
    ensures forall i :: 0 <= i < |r| ==> !('A' <= r[i] <= 'Z')
    ensures (forall i :: 0 <= i < |s| ==> !('A' <= s[i] <= 'Z')) ==> r == s
  {
    seq(|s|, i requires 0 <= i < |s| => LowerChar(s[i]))
  }

  /** Folding case twice is folding it once. */
  lemma ToLowerIdempotent(s: string)
    ensures ToLower(ToLower(s)) == ToLower(s)
  {
  }

  predicate IsWordChar(c: char)
  {
    'a' <= c <= 'z' || 'A' <= c <= 'Z' || '0' <= c <= '9' || c == '_'
  }

  /** `s.replace(/\b\w/g, c => c.toUpperCase())`: the first word character of every word is upper-cased. */
  function CapitalizeWords(s: string): (r: string)
    ensures |r| == |s|
    ensures forall i :: 0 <= i < |s| && IsWordChar(s[i]) && (i == 0 || !IsWordChar(s[i - 1])) ==> r[i] == UpperChar(s[i])
    ensures forall i :: 0 <= i < |s| && !(IsWordChar(s[i]) && (i == 0 || !IsWordChar(s[i - 1]))) ==> r[i] == s[i]
    ensures forall i :: 0 <= i < |s| ==> (IsWordChar(r[i]) <==> IsWordChar(s[i]))
  {
    seq(|s|, i requires 0 <= i < |s| =>
      if IsWordChar(s[i]) && (i == 0 || !IsWordChar(s[i - 1])) then UpperChar(s[i]) else s[i])
  }

  /** `s.replace(/_/g, " ")`. */
  function UnderscoresToSpaces(s: string): (r: string)
    ensures |r| == |s|
    ensures forall i :: 0 <= i < |r| ==> r[i] != '_'
    ensures forall i :: 0 <= i < |s| && s[i] == '_' ==> r[i] == ' '
    ensures forall i :: 0 <= i < |s| && s[i] != '_' ==> r[i] == s[i]
  {
    seq(|s|, i requires 0 <= i < |s| => if s[i] == '_' then ' ' else s[i])
  }

  // ---------------------------------------------------------------------------------------
  // The page's helpers

  /** `status.replace(/\s+/g, "_").toLowerCase()`: the form statuses are compared and keyed in. */
  function FormatStatus(status: string): (r: string)
    ensures NoWhitespace(r)
  {
    var r := ToLower(ReplaceWhitespaceRuns(status, '_'));
    assert forall i :: 0 <= i < |r| ==> !IsWhitespace(ReplaceWhitespaceRuns(status, '_')[i]);
    r
  }

  /** normalizeStatus: the formatted status when it is one of the kept statuses, "offline" otherwise. */
  function NormalizeStatus(status: string): (r: string)
    ensures r in StatusOrder[..TotalIndex]
  {
    var formatted := FormatStatus(status);
    assert StatusOrder[..TotalIndex] == KeptStatuses + ["offline"];
    if formatted in KeptStatuses then formatted else "offline"
  }

  /** getColorForStatus: the colour of the status, whatever its case, and the default for any other. */
  function ColorForStatus(status: string): (r: string)
    ensures r in ColorTable.Values
    ensures ToLower(status) !in ColorTable ==> r == DefaultColor
  {
    var key := ToLower(status);
    assert ColorTable["offline"] == DefaultColor;
    if key in ColorTable then ColorTable[key] else DefaultColor
  }

  /** The display name of a card: underscores become spaces, words are capitalised, space runs collapse. */
  function CardName(status: string): string
  {
    ReplaceWhitespaceRuns(CapitalizeWords(UnderscoresToSpaces(status)), ' ')
  }

  /** The status a record is counted under before normalisation: its own, or "Unknown" when missing or empty. */
  function StatusOf(record: VehicleRecord): string
  {
    if record.status.Some? && record.status.value != "" then record.status.value else UnknownStatus
  }

  /** The bucket a record is counted in. */
  function BucketOf(record: VehicleRecord): string
  {
    NormalizeStatus(StatusOf(record))
  }

  /** The bucket of each record, in order. */
  function Buckets(data: seq<VehicleRecord>): (r: seq<string>)
    ensures |r| == |data|
  {
    if data == [] then [] else Buckets(data[..|data| - 1]) + [BucketOf(data[|data| - 1])]
  }

  /** How many entries of `buckets` are `status`. */
  function Occurrences(buckets: seq<string>, status: string): (n: nat)
    ensures n <= |buckets|
  {
    if buckets == [] then 0
    else Occurrences(buckets[..|buckets| - 1], status) + (if buckets[|buckets| - 1] == status then 1 else 0)
  }

  /** How many of `data` are counted in the bucket `status`. */
  function BucketCount(data: seq<VehicleRecord>, status: string): nat
  {
    Occurrences(Buckets(data), status)
  }

  // ---------------------------------------------------------------------------------------
  // The status map: a JavaScript Map, whose entries keep the order their keys were first set in

  /** The position of `key` in the map, or -1. */
  function IndexOf(m: seq<Entry>, key: string): (r: int)
    ensures -1 <= r < |m|
    ensures r >= 0 ==> m[r].status == key && forall j :: 0 <= j < r ==> m[j].status != key
    ensures r < 0 ==> forall j :: 0 <= j < |m| ==> m[j].status != key
  {
    if m == [] then -1
    else if m[0].status == key then 0
    else
      var r := IndexOf(m[1..], key);
      if r < 0 then -1 else r + 1
  }

  /** `map.has(key)`. */
  predicate Has(m: seq<Entry>, key: string)
  {
    IndexOf(m, key) >= 0
  }

  /** `map.get(key).count`. */
  function Get(m: seq<Entry>, key: string): nat
    requires Has(m, key)
  {
    m[IndexOf(m, key)].count
  }

  /** `map.set(key, { count })`: an existing key keeps its place, a new one goes last. */
  function Set(m: seq<Entry>, key: string, count: nat): (r: seq<Entry>)
    ensures Has(m, key) ==> |r| == |m| && r[IndexOf(m, key)] == Entry(key, count)
    ensures Has(m, key) ==> forall j :: 0 <= j < |m| && j != IndexOf(m, key) ==> r[j] == m[j]
    ensures !Has(m, key) ==> r == m + [Entry(key, count)]
  {
    var i := IndexOf(m, key);
    if i >= 0 then m[i := Entry(key, count)] else m + [Entry(key, count)]
  }

  /** After `map.set(key, { count })`, `map.get(key)` reads back `count`. */
  lemma GetAfterSet(m: seq<Entry>, key: string, count: nat)
    ensures Has(Set(m, key, count), key) && Get(Set(m, key, count), key) == count
  {
    var r := Set(m, key, count);
    var i := IndexOf(m, key);
    assert r[if i >= 0 then i else |m|].status == key;
    assert forall j :: 0 <= j < |m| && j != i ==> r[j] == m[j];
  }

  /** No two card statuses are equal. */
  lemma StatusOrderDistinct()
    ensures forall i, j :: 0 <= i < j < |StatusOrder| ==> StatusOrder[i] != StatusOrder[j]
  {
  }

  /** In a map holding the card statuses in their order, each of them is found at its own position. */
  lemma IndexOfStatus(m: seq<Entry>, j: int)
    requires HoldsCardStatuses(m)
    requires 0 <= j < |StatusOrder|
    ensures IndexOf(m, StatusOrder[j]) == j
  {
    StatusOrderDistinct();
  }

  /**
    getDynamicCardsData: the status map starts with the six statuses at zero; each record
    adds one to its normalised status and one to the total; each entry then becomes a card.
   */
  method GetDynamicCardsData(data: seq<VehicleRecord>) returns (cards: seq<Card>)
    ensures |cards| == |StatusOrder|
    ensures forall j :: 0 <= j < |cards| ==> cards[j].key == StatusOrder[j]
    ensures forall j :: 0 <= j < |cards| ==>
      cards[j].name == CardName(StatusOrder[j]) && cards[j].colorCode == ColorForStatus(StatusOrder[j])
    ensures forall j :: 0 <= j < TotalIndex ==> cards[j].count == BucketCount(data, StatusOrder[j])
    ensures cards[TotalIndex].count == |data|
  {
    var statusMap := [
      Entry("running", 0), Entry("stop", 0), Entry("idle", 0),
      Entry("never_connected", 0), Entry("offline", 0), Entry("total", 0)
    ];
    var i := 0;
    while i < |data|
      invariant 0 <= i <= |data|
      invariant HoldsCardStatuses(statusMap)
      invariant forall j :: 0 <= j < TotalIndex ==> statusMap[j].count == BucketCount(data[..i], StatusOrder[j])
      invariant statusMap[TotalIndex].count == i
    {
      ghost var bucket;
      statusMap, bucket := CountRecord(statusMap, data[i]);
      CountOneMore(data, i, bucket);
      i := i + 1;
    }
    assert data[..i] == data;
    KeysAreFormatted();
    cards := seq(|statusMap|, j requires 0 <= j < |statusMap| => CardOf(statusMap[j]));
  }

  /** The status map holds the six card statuses, in their order. */
  predicate HoldsCardStatuses(m: seq<Entry>)
  {
    |m| == |StatusOrder| && forall j :: 0 <= j < |m| ==> m[j].status == StatusOrder[j]
  }

  /**
    The `forEach` callback of getDynamicCardsData: the record's status, or "Unknown", is
    normalised, and its bucket and the total each go up by one.
   */
  method CountRecord(statusMap: seq<Entry>, record: VehicleRecord) returns (updated: seq<Entry>, ghost bucket: int)
    requires HoldsCardStatuses(statusMap)
    ensures HoldsCardStatuses(updated)
    ensures 0 <= bucket < TotalIndex && BucketOf(record) == StatusOrder[bucket]
    ensures forall j :: 0 <= j < |StatusOrder| ==>
      updated[j].count == statusMap[j].count + if j == bucket || j == TotalIndex then 1 else 0
  {
    var status := StatusOf(record);
    var formattedStatus := NormalizeStatus(status);
    bucket :| 0 <= bucket < TotalIndex && StatusOrder[bucket] == formattedStatus;
    IndexOfStatus(statusMap, bucket);
    updated := statusMap;
    if Has(updated, formattedStatus) {
      var existing := Get(updated, formattedStatus);
      SetCardStatus(updated, bucket, existing + 1);
      updated := Set(updated, formattedStatus, existing + 1);
    } else {
      // normalizeStatus only returns statuses the map was created with
      assert false;
    }
    IndexOfStatus(updated, TotalIndex);
    SetCardStatus(updated, TotalIndex, Get(updated, "total") + 1);
    updated := Set(updated, "total", Get(updated, "total") + 1);
  }

  /** In a map holding the card statuses, setting one of them replaces its own entry. */
  lemma SetCardStatus(m: seq<Entry>, j: int, count: nat)
    requires HoldsCardStatuses(m) && 0 <= j < |StatusOrder|
    ensures Set(m, StatusOrder[j], count) == m[j := Entry(StatusOrder[j], count)]
  {
    IndexOfStatus(m, j);
  }

  /** One entry of the status map as a card. */
  function CardOf(e: Entry): Card
  {
    Card(FormatStatus(e.status), CardName(e.status), e.count, ColorForStatus(e.status))
  }

  /** Counting one more record adds one to the count of its bucket and leaves the other buckets' counts. */
  lemma CountOneMore(data: seq<VehicleRecord>, i: int, bucket: int)
    requires 0 <= i < |data| && 0 <= bucket < TotalIndex && BucketOf(data[i]) == StatusOrder[bucket]
    ensures forall j :: 0 <= j < TotalIndex ==>
      BucketCount(data[..i + 1], StatusOrder[j]) == BucketCount(data[..i], StatusOrder[j]) + if j == bucket then 1 else 0
  {
    var before := data[..i];
    assert data[..i + 1][..i] == before;
    var buckets := Buckets(before) + [StatusOrder[bucket]];
    assert Buckets(data[..i + 1]) == buckets;
    assert buckets[..|buckets| - 1] == Buckets(before);
    StatusOrderDistinct();
  }

  /** A status without whitespace or upper-case letters is its own formatted form. */
  lemma {:induction false} FormatKeepsPlainStatus(status: string)
    requires NoWhitespace(status)
    requires forall i :: 0 <= i < |status| ==> !('A' <= status[i] <= 'Z')
    ensures FormatStatus(status) == status
  {
    assert ReplaceWhitespaceRuns(status, '_') == status;
  }

  /** The six card statuses are already in formatted form, so each card's key is its status. */
  lemma KeysAreFormatted()
    ensures forall j :: 0 <= j < |StatusOrder| ==> FormatStatus(StatusOrder[j]) == StatusOrder[j]
  {
    forall j | 0 <= j < |StatusOrder|
      ensures FormatStatus(StatusOrder[j]) == StatusOrder[j]
    {
      var s := StatusOrder[j];
      assert forall i :: 0 <= i < |s| ==> 'a' <= s[i] <= 'z' || s[i] == '_';
      FormatKeepsPlainStatus(s);
    }
  }

  // ---------------------------------------------------------------------------------------
  // What the cards promise

  /** Every record lands in exactly one of the five buckets. */
  lemma ExactlyOneBucket(record: VehicleRecord)
    ensures exists j :: 0 <= j < TotalIndex && BucketOf(record) == StatusOrder[j]
    ensures forall j, k :: 0 <= j < k < TotalIndex ==> !(BucketOf(record) == StatusOrder[j] && BucketOf(record) == StatusOrder[k])
  {
    StatusOrderDistinct();
    assert BucketOf(record) in StatusOrder[..TotalIndex];
  }

  function SumOfBuckets(data: seq<VehicleRecord>): nat
  {
    BucketCount(data, "running") + BucketCount(data, "stop") + BucketCount(data, "idle")
      + BucketCount(data, "never_connected") + BucketCount(data, "offline")
  }

  /** The five bucket counts add up to the total, the number of records. */
  lemma {:induction false} BucketsSumToTotal(data: seq<VehicleRecord>)
    ensures SumOfBuckets(data) == |data|
  {
    if data != [] {
      var init := data[..|data| - 1];
      BucketsSumToTotal(init);
      var last := BucketOf(data[|data| - 1]);
      CountLast(data, "running");
      CountLast(data, "stop");
      CountLast(data, "idle");
      CountLast(data, "never_connected");
      CountLast(data, "offline");
      assert last in StatusOrder[..TotalIndex];
      assert StatusOrder[..TotalIndex] == ["running", "stop", "idle", "never_connected", "offline"];
    }
  }

  /** Adding a record to the end adds one to its own bucket and nothing to any other. */
  lemma CountLast(data: seq<VehicleRecord>, status: string)
    requires data != []
    ensures BucketCount(data, status) == BucketCount(data[..|data| - 1], status)
      + if BucketOf(data[|data| - 1]) == status then 1 else 0
  {
    var buckets := Buckets(data);
    assert buckets[..|buckets| - 1] == Buckets(data[..|data| - 1]);
  }

  /** Normalising a normalised status changes nothing. */
  lemma NormalizeIdempotent(status: string)
    ensures NormalizeStatus(NormalizeStatus(status)) == NormalizeStatus(status)
  {
    KeysAreFormatted();
    var r := NormalizeStatus(status);
    var j :| 0 <= j < TotalIndex && StatusOrder[j] == r;
    assert FormatStatus(r) == r;
  }

  /** Leading whitespace followed by a word is dropped up to the word. */
  lemma {:induction false} DropWhitespaceRun(ws: string, b: string)
    requires forall i :: 0 <= i < |ws| ==> IsWhitespace(ws[i])
    requires b == [] || !IsWhitespace(b[0])
    ensures DropWhitespace(ws + b) == b
  {
    if ws != [] {
      assert (ws + b)[1..] == ws[1..] + b;
      DropWhitespaceRun(ws[1..], b);
    }
  }

  /** Between two words, a run of whitespace of any length becomes a single separator. */
  lemma ReplaceRunBetween(a: string, ws: string, b: string, sep: char)
    requires NoWhitespace(a) && NoWhitespace(b)
    requires ws != [] && forall i :: 0 <= i < |ws| ==> IsWhitespace(ws[i])
    ensures ReplaceWhitespaceRuns(a + ws + b, sep) == a + [sep] + b
  {
    ReplaceRunSplits(a, ws, b, sep);
  }

  /** Dropping leading whitespace from text that ends in a non-whitespace character leaves that ending in place. */
  lemma {:induction false} DropWhitespaceAppend(a: string, t: string)
    requires a != [] && !IsWhitespace(a[|a| - 1])
    ensures DropWhitespace(a + t) == DropWhitespace(a) + t
  {
    if IsWhitespace(a[0]) {
      assert (a + t)[1..] == a[1..] + t;
      DropWhitespaceAppend(a[1..], t);
    }
  }

  /**
    A whitespace run between two pieces of text that do not themselves touch it becomes one
    separator, and each piece is replaced on its own: every maximal run of `/\s+/g` becomes one
    separator, however many runs the text holds.
   */
  lemma {:induction false} ReplaceRunSplits(a: string, ws: string, b: string, sep: char)
    requires a == [] || !IsWhitespace(a[|a| - 1])
    requires b == [] || !IsWhitespace(b[0])
    requires ws != [] && forall i :: 0 <= i < |ws| ==> IsWhitespace(ws[i])
    ensures ReplaceWhitespaceRuns(a + ws + b, sep) == ReplaceWhitespaceRuns(a, sep) + [sep] + ReplaceWhitespaceRuns(b, sep)
    decreases |a|
  {
    if a == [] {
      assert a + ws + b == ws + b;
      assert ReplaceWhitespaceRuns(a, sep) + [sep] == [sep];
      SplitsAtStart(ws, b, sep);
    } else if !IsWhitespace(a[0]) {
      ReplaceRunSplits(a[1..], ws, b, sep);
      SplitsAfterWordChar(a, ws, b, sep);
    } else {
      LeadingRunOfWord(a);
      ReplaceRunSplits(DropWhitespace(a), ws, b, sep);
      SplitsAfterLeadingRun(a, ws, b, sep);
    }
  }

  /** A leading run becomes one separator. */
  lemma SplitsAtStart(ws: string, b: string, sep: char)
    requires b == [] || !IsWhitespace(b[0])
    requires ws != [] && forall i :: 0 <= i < |ws| ==> IsWhitespace(ws[i])
    ensures ReplaceWhitespaceRuns(ws + b, sep) == [sep] + ReplaceWhitespaceRuns(b, sep)
  {
    assert (ws + b)[0] == ws[0];
    DropWhitespaceRun(ws, b);
  }

  /** The step of `ReplaceRunSplits` for text that starts with a non-whitespace character. */
  lemma SplitsAfterWordChar(a: string, ws: string, b: string, sep: char)
    requires a != [] && !IsWhitespace(a[0])
    requires ReplaceWhitespaceRuns(a[1..] + ws + b, sep) == ReplaceWhitespaceRuns(a[1..], sep) + [sep] + ReplaceWhitespaceRuns(b, sep)
    ensures ReplaceWhitespaceRuns(a + ws + b, sep) == ReplaceWhitespaceRuns(a, sep) + [sep] + ReplaceWhitespaceRuns(b, sep)
  {
    UnfoldAfterWordChar(a, ws, b, sep);
    Regroup([a[0]], ReplaceWhitespaceRuns(a[1..], sep), [sep], ReplaceWhitespaceRuns(b, sep));
  }

  /** The step of `ReplaceRunSplits` for text that starts with whitespace. */
  lemma SplitsAfterLeadingRun(a: string, ws: string, b: string, sep: char)
    requires a != [] && IsWhitespace(a[0]) && !IsWhitespace(a[|a| - 1])
    requires ReplaceWhitespaceRuns(DropWhitespace(a) + ws + b, sep) == ReplaceWhitespaceRuns(DropWhitespace(a), sep) + [sep] + ReplaceWhitespaceRuns(b, sep)
    ensures ReplaceWhitespaceRuns(a + ws + b, sep) == ReplaceWhitespaceRuns(a, sep) + [sep] + ReplaceWhitespaceRuns(b, sep)
  {
    UnfoldAfterLeadingRun(a, ws, b, sep);
    Regroup([sep], ReplaceWhitespaceRuns(DropWhitespace(a), sep), [sep], ReplaceWhitespaceRuns(b, sep));
  }

  /** Concatenation regroups freely. */
  lemma Regroup3(x: string, y: string, z: string)
    ensures x + y + z == x + (y + z)
  {
  }

  lemma Regroup(c: string, x: string, m: string, y: string)
    ensures c + (x + m + y) == c + x + m + y
  {
  }

  /** Text that ends in a non-whitespace character keeps a non-empty, same-ending rest after its leading run. */
  lemma LeadingRunOfWord(a: string)
    requires a != [] && !IsWhitespace(a[|a| - 1])
    ensures DropWhitespace(a) != [] && DropWhitespace(a)[|DropWhitespace(a)| - 1] == a[|a| - 1]
    ensures IsWhitespace(a[0]) ==> |DropWhitespace(a)| < |a|
  {
  }

  /** Replacing runs in `a + ws + b`, where `a` starts with a non-whitespace character, keeps that character in front. */
  lemma UnfoldAfterWordChar(a: string, ws: string, b: string, sep: char)
    requires a != [] && !IsWhitespace(a[0])
    ensures ReplaceWhitespaceRuns(a + ws + b, sep) == [a[0]] + ReplaceWhitespaceRuns(a[1..] + ws + b, sep)
    ensures ReplaceWhitespaceRuns(a, sep) == [a[0]] + ReplaceWhitespaceRuns(a[1..], sep)
  {
    assert (a + ws + b)[0] == a[0];
    assert (a + ws + b)[1..] == a[1..] + ws + b;
  }

  /** Replacing runs in `a + ws + b`, where `a` starts with whitespace and ends without, gives one separator for the leading run. */
  lemma UnfoldAfterLeadingRun(a: string, ws: string, b: string, sep: char)
    requires a != [] && IsWhitespace(a[0]) && !IsWhitespace(a[|a| - 1])
    ensures ReplaceWhitespaceRuns(a + ws + b, sep) == [sep] + ReplaceWhitespaceRuns(DropWhitespace(a) + ws + b, sep)
    ensures ReplaceWhitespaceRuns(a, sep) == [sep] + ReplaceWhitespaceRuns(DropWhitespace(a), sep)
  {
    Regroup3(a, ws, b);
    Regroup3(DropWhitespace(a), ws, b);
    UnfoldLeadingRun(a, ws + b, sep);
  }

  /** `UnfoldAfterLeadingRun` with the text after `a` taken whole. */
  lemma UnfoldLeadingRun(a: string, t: string, sep: char)
    requires a != [] && IsWhitespace(a[0]) && !IsWhitespace(a[|a| - 1])
    ensures ReplaceWhitespaceRuns(a + t, sep) == [sep] + ReplaceWhitespaceRuns(DropWhitespace(a) + t, sep)
  {
    assert (a + t)[0] == a[0];
    DropWhitespaceAppend(a, t);
  }

  lemma ToLowerConcat(a: string, b: string)
    ensures ToLower(a + b) == ToLower(a) + ToLower(b)
  {
  }

  /**
    Two words with any run of whitespace between them, in any case, format as the two words
    in lower case joined by an underscore.
   */
  lemma FormatJoinsWords(a: string, ws: string, b: string)
    requires NoWhitespace(a) && NoWhitespace(b)
    requires ws != [] && forall i :: 0 <= i < |ws| ==> IsWhitespace(ws[i])
    ensures FormatStatus(a + ws + b) == ToLower(a) + "_" + ToLower(b)
  {
    ReplaceRunBetween(a, ws, b, '_');
    ToLowerConcat(a + "_", b);
    ToLowerConcat(a, "_");
  }

  /**
    A status made of "never" and "connected", in any mix of case, with any run of whitespace
    between them ("Never Connected", "NEVER   connected"), is counted as never_connected.
   */
  lemma NeverConnectedSpellings(never: string, ws: string, connected: string)
    requires NoWhitespace(never) && ToLower(never) == "never"
    requires NoWhitespace(connected) && ToLower(connected) == "connected"
    requires ws != [] && forall i :: 0 <= i < |ws| ==> IsWhitespace(ws[i])
    ensures BucketOf(VehicleRecord(Some(never + ws + connected))) == "never_connected"
  {
    var s := never + ws + connected;
    assert StatusOf(VehicleRecord(Some(s))) == s by {
      assert |s| >= |ws| > 0;
    }
    assert FormatStatus(s) == "never_connected" by {
      FormatJoinsWords(never, ws, connected);
      assert "never" + "_" + "connected" == "never_connected";
    }
    assert KeptStatuses[3] == "never_connected";
  }

  /** The default status formats as "unknown". */
  lemma FormatUnknown()
    ensures FormatStatus(UnknownStatus) == "unknown"
  {
    assert IsLowerWord("unknown");
    assert Capitalized("unknown") == UnknownStatus;
    LowerCapitalized("unknown");
    FormatFoldsCase(UnknownStatus);
  }

  /** A record without a status, or with an empty one, is counted as offline. */
  lemma MissingStatusIsOffline(record: VehicleRecord)
    requires record.status.None? || record.status == Some("")
    ensures BucketOf(record) == "offline"
  {
    FormatUnknown();
    assert StatusOf(record) == UnknownStatus;
  }

  /** A status whose formatted form is not one of the four kept statuses is counted as offline. */
  lemma UnrecognisedIsOffline(record: VehicleRecord)
    requires FormatStatus(StatusOf(record)) !in KeptStatuses
    ensures BucketOf(record) == "offline"
  {
  }

  /** A one-word kept status in any mix of case ("Running", "IDLE") is counted in its own bucket. */
  lemma KeptSpellings(status: string)
    requires status != [] && NoWhitespace(status) && ToLower(status) in KeptStatuses
    ensures BucketOf(VehicleRecord(Some(status))) == ToLower(status)
  {
    FormatFoldsCase(status);
  }

  /** Colours do not depend on the case of the status. */
  lemma ColorIgnoresCase(status: string)
    ensures ColorForStatus(status) == ColorForStatus(ToLower(status))
  {
    ToLowerIdempotent(status);
  }

  /** Each card gets its status's colour from the table. */
  lemma CardColors()
    ensures forall j :: 0 <= j < |StatusOrder| ==> ColorForStatus(StatusOrder[j]) == ColorTable[StatusOrder[j]]
  {
    forall j | 0 <= j < |StatusOrder|
      ensures ColorForStatus(StatusOrder[j]) == ColorTable[StatusOrder[j]]
    {
      var k := StatusOrder[j];
      assert forall i :: 0 <= i < |k| ==> 'a' <= k[i] <= 'z' || k[i] == '_';
      assert ToLower(k) == k;
    }
  }

  /** A non-empty word of lower-case ASCII letters. */
  predicate IsLowerWord(w: string)
  {
    w != [] && forall i :: 0 <= i < |w| ==> 'a' <= w[i] <= 'z'
  }

  /** `w` with its first letter in upper case. */
  function Capitalized(w: string): (r: string)
    requires w != []
    ensures |r| == |w|
  {
    [UpperChar(w[0])] + w[1..]
  }

  /** Upper-casing a lower-case word's first letter and folding the case again gives the word back. */
  lemma LowerCapitalized(w: string)
    requires IsLowerWord(w)
    ensures ToLower(Capitalized(w)) == w && NoWhitespace(Capitalized(w))
  {
    var c := Capitalized(w);
    forall i | 0 <= i < |w|
      ensures ToLower(c)[i] == w[i] && !IsWhitespace(c[i])
    {
      if i > 0 {
        assert c[i] == w[i];
      }
    }
  }

  /** The card name of a one-word status is the word capitalised: "total" is named "Total". */
  lemma CardNameOfWord(w: string)
    requires IsLowerWord(w)
    ensures CardName(w) == Capitalized(w)
  {
    assert UnderscoresToSpaces(w) == w;
    CapitalizeWord(w);
    LowerCapitalized(w);
  }

  /**
    The card name of a two-word status joins the capitalised words with a space:
    "never_connected" is named "Never Connected".
   */
  lemma CardNameOfTwoWords(a: string, b: string)
    requires IsLowerWord(a) && IsLowerWord(b)
    ensures CardName(a + "_" + b) == Capitalized(a) + " " + Capitalized(b)
  {
    SpacedWords(a, b);
    CapitalizeTwoWords(a, b);
    LowerCapitalized(a);
    LowerCapitalized(b);
    ReplaceRunBetween(Capitalized(a), " ", Capitalized(b), ' ');
  }

  /** Two words joined by an underscore have the underscore turned into a space. */
  lemma SpacedWords(a: string, b: string)
    requires IsLowerWord(a) && IsLowerWord(b)
    ensures UnderscoresToSpaces(a + "_" + b) == a + " " + b
  {
    var s, spaced := a + "_" + b, a + " " + b;
    forall i | 0 <= i < |s|
      ensures UnderscoresToSpaces(s)[i] == spaced[i]
    {
      if i < |a| {
        assert s[i] == a[i] == spaced[i];
      } else if i > |a| {
        assert s[i] == b[i - |a| - 1] == spaced[i];
      }
    }
  }

  /** A lower-case word has only its first letter upper-cased. */
  lemma CapitalizeWord(w: string)
    requires IsLowerWord(w)
    ensures CapitalizeWords(w) == Capitalized(w)
  {
    var r, c := CapitalizeWords(w), Capitalized(w);
    forall i | 0 <= i < |w|
      ensures r[i] == c[i]
    {
      if i > 0 {
        assert IsWordChar(w[i - 1]);
        assert c[i] == w[i];
      }
    }
  }

  /** Words either side of a non-word character are capitalised independently. */
  lemma CapitalizeAroundBreak(x: string, c: char, y: string)
    requires !IsWordChar(c)
    ensures CapitalizeWords(x + [c] + y) == CapitalizeWords(x) + [c] + CapitalizeWords(y)
  {
    var s := x + [c] + y;
    var r, t := CapitalizeWords(s), CapitalizeWords(x) + [c] + CapitalizeWords(y);
    forall i | 0 <= i < |x|
      ensures r[i] == t[i]
    {
      assert s[i] == x[i];
      if i > 0 {
        assert s[i - 1] == x[i - 1];
      }
    }
    forall i | |x| < i < |s|
      ensures r[i] == t[i]
    {
      var k := i - |x| - 1;
      assert s[i] == y[k];
      if k > 0 {
        assert s[i - 1] == y[k - 1];
      } else {
        assert s[i - 1] == c;
      }
    }
    assert r[|x|] == t[|x|];
    assert |r| == |t|;
  }

  /** Two words joined by a space each have their first letter upper-cased. */
  lemma CapitalizeTwoWords(a: string, b: string)
    requires IsLowerWord(a) && IsLowerWord(b)
    ensures CapitalizeWords(a + " " + b) == Capitalized(a) + " " + Capitalized(b)
  {
    CapitalizeAroundBreak(a, ' ', b);
    CapitalizeWord(a);
    CapitalizeWord(b);
  }

  /** A card name formats back to the card's key. */
  lemma CardNameRoundTrip(a: string, b: string)
    requires IsLowerWord(a) && IsLowerWord(b)
    ensures FormatStatus(CardName(a)) == a
    ensures FormatStatus(CardName(a + "_" + b)) == a + "_" + b
  {
    CardNameOfWord(a);
    LowerCapitalized(a);
    FormatFoldsCase(Capitalized(a));
    CardNameOfTwoWords(a, b);
    LowerCapitalized(b);
    FormatJoinsWords(Capitalized(a), " ", Capitalized(b));
  }

  /** Without whitespace, formatting a status only folds its case. */
  lemma FormatFoldsCase(status: string)
    requires NoWhitespace(status)
    ensures FormatStatus(status) == ToLower(status)
  {
    assert ReplaceWhitespaceRuns(status, '_') == status;
  }
}
