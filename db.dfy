/** The per-player edit store of watson.db: BlockEdit and PlayerEditSet.

    PlayerEditSet keeps its edits in a TreeSet ordered by BlockEditComparator.
    Here that set is the field `edits`, a sequence kept strictly ordered by
    the store's comparator `before`, which is any strict total order on the
    immutable content of an edit (BlockEditComparator is not part of this
    model). Iterating the TreeSet is walking `edits` from index 0. */
module Db {
  import opened Wrappers
  import opened Numbers

  /** The id:data pair a block name resolves to. */
  datatype BlockType = BlockType(id: int, data: int)

  /** The immutable content of a BlockEdit: time in milliseconds since the
      epoch, the acting player, creation (true) or destruction (false),
      the block coordinates and the block type. */
  datatype EditRecord = EditRecord(
    time: int,
    player: string,
    creation: bool,
    x: int,
    y: int,
    z: int,
    blockType: BlockType)

  /** One edit. Only the back-reference to the owning store changes after
      construction. */
  class BlockEdit {
    const record: EditRecord
    var playerEditSet: PlayerEditSet?

    constructor (record: EditRecord)
      ensures this.record == record && playerEditSet == null
    {
      this.record := record;
      playerEditSet := null;
    }
  }

  predicate At(r: EditRecord, x: int, y: int, z: int) {
    r.x == x && r.y == y && r.z == z
  }

  /** before(a, b) holds when the comparator puts a strictly before b. */
  type Order = (EditRecord, EditRecord) -> bool

  ghost predicate StrictTotalOrder(before: Order) {
    && (forall a :: !before(a, a))
    && (forall a, b, c :: before(a, b) && before(b, c) ==> before(a, c))
    && (forall a, b :: a != b ==> before(a, b) || before(b, a))
  }

  /** Strictly ascending in the order: what a TreeSet's iteration yields. */
  ghost predicate Ordered(before: Order, s: seq<BlockEdit>) {
    forall i, j :: 0 <= i < j < |s| ==> before(s[i].record, s[j].record)
  }

  /** BlockEditComparator compares times first: an older edit always comes
      before a newer one, whatever the tie-break among equal times is. */
  ghost predicate TimeFirst(before: Order) {
    forall a: EditRecord, b: EditRecord :: a.time < b.time ==> before(a, b)
  }

  /** Walking an ordered store never goes back in time. */
  lemma OrderedByTime(before: Order, s: seq<BlockEdit>)
    requires StrictTotalOrder(before) && TimeFirst(before) && Ordered(before, s)
    ensures forall i, j :: 0 <= i < j < |s| ==> s[i].record.time <= s[j].record.time
  {
    forall i, j | 0 <= i < j < |s|
      ensures s[i].record.time <= s[j].record.time
    {
      var a, b := s[i].record, s[j].record;
      assert before(a, b);
      assert !before(b, a);
    }
  }

  function Records(s: seq<BlockEdit>): (r: seq<EditRecord>)
    ensures |r| == |s| && forall i :: 0 <= i < |s| ==> r[i] == s[i].record
  {
    seq(|s|, i requires 0 <= i < |s| => s[i].record)
  }

  /** TreeSet.add: the edit goes after every element ordered before it and
      before every element ordered after it; when an element compares equal
      the set is left as it was. */
  function Insert(before: Order, s: seq<BlockEdit>, e: BlockEdit): (r: seq<BlockEdit>)
    ensures forall x :: x in s ==> x in r
    ensures forall x :: x in r ==> x in s || x == e
    ensures |s| <= |r| <= |s| + 1
  {
    if s == [] then [e]
    else if before(e.record, s[0].record) then [e] + s
    else if before(s[0].record, e.record) then [s[0]] + Insert(before, s[1..], e)
    else s
  }

  /** Inserting keeps the sequence strictly ordered. */
  lemma {:induction false} InsertOrdered(before: Order, s: seq<BlockEdit>, e: BlockEdit)
    requires StrictTotalOrder(before) && Ordered(before, s)
    ensures Ordered(before, Insert(before, s, e))
  {
    if s != [] && !before(e.record, s[0].record) && before(s[0].record, e.record) {
      var rest := Insert(before, s[1..], e);
      InsertOrdered(before, s[1..], e);
      var r := [s[0]] + rest;
      forall i, j | 0 <= i < j < |r|
        ensures before(r[i].record, r[j].record)
      {
        if i == 0 {
          assert r[j] in rest;
          assert r[j] in s[1..] || r[j] == e;
        }
      }
    }
  }

  /** An edit that compares equal to the element at index k leaves the set
      as it was: every element before k is ordered before it. */
  lemma {:induction false} InsertPresentAt(before: Order, s: seq<BlockEdit>, e: BlockEdit, k: nat)
    requires StrictTotalOrder(before) && Ordered(before, s)
    requires k < |s| && s[k].record == e.record
    ensures Insert(before, s, e) == s
    decreases k
  {
    if k > 0 {
      var t := s[1..];
      assert before(s[0].record, e.record);
      assert !before(e.record, s[0].record);
      assert Ordered(before, t) && t[k - 1] == s[k];
      InsertPresentAt(before, t, e, k - 1);
      assert s == [s[0]] + t;
    }
  }

  /** An edit that compares equal to an element leaves the set as it was. */
  lemma {:induction false} InsertPresent(before: Order, s: seq<BlockEdit>, e: BlockEdit)
    requires StrictTotalOrder(before) && Ordered(before, s)
    requires e.record in Records(s)
    ensures Insert(before, s, e) == s
  {
    var k :| 0 <= k < |s| && Records(s)[k] == e.record;
    InsertPresentAt(before, s, e, k);
  }

  /** An edit that compares equal to no element is added exactly once. */
  lemma {:induction false} InsertAbsent(before: Order, s: seq<BlockEdit>, e: BlockEdit)
    requires StrictTotalOrder(before)
    requires e.record !in Records(s)
    ensures |Insert(before, s, e)| == |s| + 1
    ensures multiset(Insert(before, s, e)) == multiset(s) + multiset{e}
  {
    if s != [] {
      assert Records(s)[0] == s[0].record;
      if !before(e.record, s[0].record) && before(s[0].record, e.record) {
        assert forall i :: 0 <= i < |s| - 1 ==> Records(s[1..])[i] == Records(s)[i + 1];
        InsertAbsent(before, s[1..], e);
        assert s == [s[0]] + s[1..];
      }
    }
  }

  /** Inserting adds exactly the new edit when no element compares equal
      to it, and nothing otherwise. */
  lemma InsertElements(before: Order, s: seq<BlockEdit>, e: BlockEdit)
    requires StrictTotalOrder(before) && Ordered(before, s)
    ensures e.record in Records(s) ==> Insert(before, s, e) == s
    ensures e.record !in Records(s) ==>
      |Insert(before, s, e)| == |s| + 1 && multiset(Insert(before, s, e)) == multiset(s) + multiset{e}
    ensures forall x :: x in Insert(before, s, e) ==> x in s || x == e
  {
    if e.record in Records(s) {
      InsertPresent(before, s, e);
    } else {
      InsertAbsent(before, s, e);
    }
  }

  /** TreeSet.lower: the index of the last element ordered strictly before
      e, or -1 when there is none. */
  function LastBefore(before: Order, s: seq<BlockEdit>, e: EditRecord): (k: int)
    ensures -1 <= k < |s|
    ensures 0 <= k ==> before(s[k].record, e)
    ensures forall j :: k < j < |s| ==> !before(s[j].record, e)
  {
    if s == [] then -1
    else if before(s[|s| - 1].record, e) then |s| - 1
    else LastBefore(before, s[..|s| - 1], e)
  }

  /** TreeSet.higher: the index of the first element ordered strictly after
      e, or |s| when there is none. */
  function FirstAfter(before: Order, s: seq<BlockEdit>, e: EditRecord): (k: nat)
    ensures k <= |s|
    ensures k < |s| ==> before(e, s[k].record)
    ensures forall j :: 0 <= j < k ==> !before(e, s[j].record)
  {
    if s == [] then 0
    else if before(e, s[0].record) then 0
    else 1 + FirstAfter(before, s[1..], e)
  }

  /** The index of the first edit at (x, y, z), walking from the oldest, or
      |s| when there is none. */
  function FirstAt(s: seq<BlockEdit>, x: int, y: int, z: int): (k: nat)
    ensures k <= |s|
    ensures k < |s| ==> At(s[k].record, x, y, z)
    ensures forall j :: 0 <= j < k ==> !At(s[j].record, x, y, z)
  {
    if s == [] then 0
    else if At(s[0].record, x, y, z) then 0
    else 1 + FirstAt(s[1..], x, y, z)
  }

  /** In an ordered store the first match found by a walk from the start is
      the oldest edit at those coordinates. */
  lemma FirstAtIsOldest(before: Order, s: seq<BlockEdit>, x: int, y: int, z: int)
    requires Ordered(before, s)
    requires FirstAt(s, x, y, z) < |s|
    ensures forall e :: e in s && At(e.record, x, y, z) ==>
      e == s[FirstAt(s, x, y, z)] || before(s[FirstAt(s, x, y, z)].record, e.record)
  {
  }

  /** The calendar fields Calendar yields for a time in milliseconds, month
      counted from 1. */
  datatype DateTime = DateTime(year: int, month: int, day: int, hour: int, minute: int, second: int)

  /** The nine pipe-separated fields of a saved line: date, time, player,
      action ('c' or 'd'), type id, type data, x, y, z. */
  function SaveFields(r: EditRecord, t: DateTime): (fs: seq<string>)
    ensures |fs| == 9
    ensures fs[2] == r.player && fs[3] == ActionLetter(r.creation)
  {
    [ DateField(t),
      TimeField(t),
      r.player,
      ActionLetter(r.creation) ]
    + NumberFields(r)
  }

  /** The numbers of the last five fields: type id, type data, x, y, z. */
  function SavedNumbers(r: EditRecord): seq<int> {
    [r.blockType.id, r.blockType.data, r.x, r.y, r.z]
  }

  /** "%d|%d|%d|%d|%d" before joining: the five numbers, each as %d. */
  function NumberFields(r: EditRecord): (fs: seq<string>)
    ensures |fs| == 5 && forall k :: 0 <= k < 5 ==> fs[k] == Decimal(SavedNumbers(r)[k])
  {
    var ns := SavedNumbers(r);
    [Decimal(ns[0]), Decimal(ns[1]), Decimal(ns[2]), Decimal(ns[3]), Decimal(ns[4])]
  }

  /** "%4d-%02d-%02d" */
  function DateField(t: DateTime): string {
    SpacePad4(t.year) + "-" + ZeroPad2(t.month) + "-" + ZeroPad2(t.day)
  }

  /** "%02d:%02d:%02d" */
  function TimeField(t: DateTime): string {
    ZeroPad2(t.hour) + ":" + ZeroPad2(t.minute) + ":" + ZeroPad2(t.second)
  }

  /** The action column: 'c' for a creation, 'd' for a destruction. */
  function ActionLetter(creation: bool): (a: string)
    ensures |a| == 1
    ensures a == "c" <==> creation
    ensures a == "d" <==> !creation
  {
    var a := if creation then "c" else "d";
    assert "c"[0] == 'c' && "d"[0] == 'd';
    a
  }

  /** The format "%4d-%02d-%02d|%02d:%02d:%02d|%s|%c|%d|%d|%d|%d|%d\n". */
  function SaveLine(r: EditRecord, t: DateTime): (line: string)
    ensures |line| >= 1 && line[|line| - 1] == '\n'
    ensures '|' !in r.player ==> Split(line[..|line| - 1], '|') == SaveFields(r, t)
  {
    var fields := SaveFields(r, t);
    var line := Join(fields, '|') + "\n";
    assert line[..|line| - 1] == Join(fields, '|');
    if '|' !in r.player then
      SaveFieldsSeparated(r, t);
      SplitJoin(fields, '|');
      line
    else
      line
  }

  function Join(fields: seq<string>, sep: char): string
    requires |fields| >= 1
  {
    if |fields| == 1 then fields[0] else fields[0] + [sep] + Join(fields[1..], sep)
  }

  function IndexOf(s: string, c: char): (i: nat)
    requires c in s
    ensures i < |s| && s[i] == c && c !in s[..i]
  {
    if s[0] == c then 0
    else
      var i := 1 + IndexOf(s[1..], c);
      assert s[..i] == [s[0]] + s[1..][..i - 1];
      i
  }

  /** The pieces of s between occurrences of sep. */
  function Split(s: string, sep: char): (r: seq<string>)
    ensures |r| >= 1
    decreases |s|
  {
    if sep !in s then [s]
    else
      var i := IndexOf(s, sep);
      [s[..i]] + Split(s[i + 1..], sep)
  }

  /** Splitting undoes joining when no field holds the separator. */
  lemma {:induction false} SplitJoin(fields: seq<string>, sep: char)
    requires |fields| >= 1
    requires forall k :: 0 <= k < |fields| ==> sep !in fields[k]
    ensures Split(Join(fields, sep), sep) == fields
  {
    if |fields| > 1 {
      var f := fields[0];
      var rest := Join(fields[1..], sep);
      var s := f + [sep] + rest;
      var i := IndexOf(s, sep);
      assert s[|f|] == sep;
      assert forall j :: 0 <= j < |f| ==> s[j] == f[j];
      assert i == |f|;
      assert s[..i] == f;
      assert s[i + 1..] == rest;
      SplitJoin(fields[1..], sep);
    }
  }

  lemma NoPipeInNumeric(s: string)
    requires NumericText(s)
    ensures '|' !in s
  {
    forall i | 0 <= i < |s| ensures s[i] != '|' {}
  }

  lemma DateTimeSeparated(t: DateTime)
    ensures '|' !in DateField(t) && '|' !in TimeField(t)
  {
    SpacePad4Shape(t.year);
    ZeroPad2Reads(t.month);
    ZeroPad2Reads(t.day);
    ZeroPad2Reads(t.hour);
    ZeroPad2Reads(t.minute);
    ZeroPad2Reads(t.second);
    NoPipeInNumeric(SpacePad4(t.year));
    NoPipeInNumeric(ZeroPad2(t.month));
    NoPipeInNumeric(ZeroPad2(t.day));
    NoPipeInNumeric(ZeroPad2(t.hour));
    NoPipeInNumeric(ZeroPad2(t.minute));
    NoPipeInNumeric(ZeroPad2(t.second));
  }

  lemma DecimalSeparated(n: int)
    ensures '|' !in Decimal(n)
  {
    DecimalText(n);
    NoPipeInNumeric(Decimal(n));
  }

  /** Only the player name can hold the separator of a saved line. */
  lemma SaveFieldsSeparated(r: EditRecord, t: DateTime)
    requires '|' !in r.player
    ensures forall k :: 0 <= k < 9 ==> '|' !in SaveFields(r, t)[k]
  {
    var f := SaveFields(r, t);
    DateTimeSeparated(t);
    assert f[3] == ActionLetter(r.creation);
    forall k | 4 <= k < 9
      ensures '|' !in f[k]
    {
      assert f[k] == NumberFields(r)[k - 4];
      DecimalSeparated(SavedNumbers(r)[k - 4]);
    }
  }

  /** The text fields of a saved line: the date, the time, the player and
      the action letter, 'c' exactly for a creation and 'd' exactly for a
      destruction. */
  lemma SaveFieldsText(r: EditRecord, t: DateTime)
    ensures var f := SaveFields(r, t);
      && |f| == 9
      && f[0] == DateField(t) && f[1] == TimeField(t)
      && f[2] == r.player
      && (f[3] == "c" <==> r.creation)
      && (f[3] == "d" <==> !r.creation)
  {
    assert SaveFields(r, t)[3] == ActionLetter(r.creation);
  }

  /** Integer.parseInt reads the last five fields of a saved line back as
      the edit's block type and 32-bit coordinates. */
  lemma SaveFieldsRead(r: EditRecord, t: DateTime)
    requires IsInt32(r.blockType.id) && IsInt32(r.blockType.data)
    requires IsInt32(r.x) && IsInt32(r.y) && IsInt32(r.z)
    ensures forall k :: 4 <= k < 9 ==> ParseInt(SaveFields(r, t)[k]) == Some(SavedNumbers(r)[k - 4])
  {
    var f := SaveFields(r, t);
    forall k | 4 <= k < 9
      ensures ParseInt(f[k]) == Some(SavedNumbers(r)[k - 4])
    {
      assert f[k] == NumberFields(r)[k - 4];
      ParseDecimal(SavedNumbers(r)[k - 4]);
    }
  }

  /** No field made of digits holds a separator that is not a digit. */
  lemma DigitsExclude(s: string, sep: char)
    requires AllDigits(s) && !IsDigit(sep)
    ensures sep !in s
  {
    forall i | 0 <= i < |s| ensures s[i] != sep {
      assert IsDigit(s[i]);
    }
  }

  /** Integer.parseInt reads the date field of a saved line, split at '-',
      back as the year, month and day, for a year of four digits or more
      (a shorter one is padded with spaces, which parseInt refuses). */
  lemma DateFieldRead(t: DateTime)
    requires 1000 <= t.year && IsInt32(t.year)
    requires 0 <= t.month && IsInt32(t.month) && 0 <= t.day && IsInt32(t.day)
    ensures var f := Split(DateField(t), '-');
      |f| == 3 && ParseInt(f[0]) == Some(t.year) && ParseInt(f[1]) == Some(t.month)
      && ParseInt(f[2]) == Some(t.day)
  {
    var fs := [SpacePad4(t.year), ZeroPad2(t.month), ZeroPad2(t.day)];
    SpacePad4Wide(t.year);
    ZeroPad2Digits(t.month);
    ZeroPad2Digits(t.day);
    DigitsExclude(fs[0], '-');
    DigitsExclude(fs[1], '-');
    DigitsExclude(fs[2], '-');
    assert fs[1..][1..] == [fs[2]];
    assert Join(fs[1..], '-') == fs[1] + ['-'] + fs[2];
    assert DateField(t) == fs[0] + ['-'] + (fs[1] + ['-'] + fs[2]);
    SplitJoin(fs, '-');
    ParseDecimal(t.year);
    ZeroPad2Reads(t.month);
    ZeroPad2Reads(t.day);
  }

  /** Integer.parseInt reads the time field of a saved line, split at ':',
      back as the hour, minute and second. */
  lemma TimeFieldRead(t: DateTime)
    requires 0 <= t.hour && IsInt32(t.hour) && 0 <= t.minute && IsInt32(t.minute)
    requires 0 <= t.second && IsInt32(t.second)
    ensures var f := Split(TimeField(t), ':');
      |f| == 3 && ParseInt(f[0]) == Some(t.hour) && ParseInt(f[1]) == Some(t.minute)
      && ParseInt(f[2]) == Some(t.second)
  {
    var fs := [ZeroPad2(t.hour), ZeroPad2(t.minute), ZeroPad2(t.second)];
    ZeroPad2Digits(t.hour);
    ZeroPad2Digits(t.minute);
    ZeroPad2Digits(t.second);
    DigitsExclude(fs[0], ':');
    DigitsExclude(fs[1], ':');
    DigitsExclude(fs[2], ':');
    assert fs[1..][1..] == [fs[2]];
    assert Join(fs[1..], ':') == fs[1] + [':'] + fs[2];
    assert TimeField(t) == fs[0] + [':'] + (fs[1] + [':'] + fs[2]);
    SplitJoin(fs, ':');
    ZeroPad2Reads(t.hour);
    ZeroPad2Reads(t.minute);
    ZeroPad2Reads(t.second);
  }

  /** The decimal numbers of the example line below, as the format writes
      them. */
  lemma SaveLineExampleDecimals()
    ensures Decimal(256) == "256"
    ensures Decimal(0) == "0" && Decimal(1) == "1" && Decimal(2) == "2" && Decimal(3) == "3"
  {
    assert Digits(256) == Digits(25) + "6" == Digits(2) + "56" == "256";
  }

  /** The year of the example line below, as "%4d" writes it. */
  lemma SaveLineExampleYear()
    ensures SpacePad4(2020) == "2020"
  {
    assert Digits(2020) == Digits(202) + "0" == Digits(20) + "20" == Digits(2) + "020" == "2020";
  }

  /** The two-digit fields of the example line below. */
  lemma SaveLineExamplePads()
    ensures ZeroPad2(1) == "01" && ZeroPad2(2) == "02" && ZeroPad2(3) == "03"
    ensures ZeroPad2(4) == "04" && ZeroPad2(5) == "05"
  {
    assert ZeroPad2(1) == PadLeft("1", 2, '0') == "01";
    assert ZeroPad2(2) == PadLeft("2", 2, '0') == "02";
    assert ZeroPad2(3) == PadLeft("3", 2, '0') == "03";
    assert ZeroPad2(4) == PadLeft("4", 2, '0') == "04";
    assert ZeroPad2(5) == PadLeft("5", 2, '0') == "05";
  }

  /** Join on a field followed by at least one more. */
  lemma JoinStep(a: string, rest: seq<string>, sep: char, joined: string)
    requires |rest| >= 1 && Join(rest, sep) == joined
    ensures Join([a] + rest, sep) == a + [sep] + joined
  {
    assert ([a] + rest)[1..] == rest;
  }

  /** The lemmas from here to SaveLineExampleJoin state nothing of their
      own: they only carry the verifier through the literal example, joining
      its fields with '|' two at a time from the last. The separator is a
      parameter so that the solver unfolds Join only as far as each step
      asks. */
  lemma SaveLineExampleJoinFrom6(sep: char)
    requires sep == '|'
    ensures Join(["1", "2", "3"], sep) == "1|2|3"
  {
    assert Join(["3"], sep) == "3";
    JoinStep("2", ["3"], sep, "3");
    assert ["2"] + ["3"] == ["2", "3"];
    assert "2" + [sep] + "3" == "2|3";
    JoinStep("1", ["2", "3"], sep, "2|3");
    assert ["1"] + ["2", "3"] == ["1", "2", "3"];
    assert "1" + [sep] + "2|3" == "1|2|3";
  }

  lemma SaveLineExampleJoinFrom4(sep: char)
    requires sep == '|'
    ensures Join(["256", "0", "1", "2", "3"], sep) == "256|0|1|2|3"
  {
    SaveLineExampleJoinFrom6(sep);
    JoinStep("0", ["1", "2", "3"], sep, "1|2|3");
    assert ["0"] + ["1", "2", "3"] == ["0", "1", "2", "3"];
    assert "0" + [sep] + "1|2|3" == "0|1|2|3";
    JoinStep("256", ["0", "1", "2", "3"], sep, "0|1|2|3");
    assert ["256"] + ["0", "1", "2", "3"] == ["256", "0", "1", "2", "3"];
    assert "256" + [sep] + "0|1|2|3" == "256|0|1|2|3";
  }

  lemma SaveLineExampleJoinFrom2(sep: char)
    requires sep == '|'
    ensures Join(["alice", "d", "256", "0", "1", "2", "3"], sep) == "alice|d|256|0|1|2|3"
  {
    SaveLineExampleJoinFrom4(sep);
    JoinStep("d", ["256", "0", "1", "2", "3"], sep, "256|0|1|2|3");
    assert ["d"] + ["256", "0", "1", "2", "3"] == ["d", "256", "0", "1", "2", "3"];
    assert "d" + [sep] + "256|0|1|2|3" == "d|256|0|1|2|3";
    JoinStep("alice", ["d", "256", "0", "1", "2", "3"], sep, "d|256|0|1|2|3");
    assert ["alice"] + ["d", "256", "0", "1", "2", "3"] == ["alice", "d", "256", "0", "1", "2", "3"];
    assert "alice" + [sep] + "d|256|0|1|2|3" == "alice|d|256|0|1|2|3";
  }

  lemma SaveLineExampleJoinFrom1(sep: char)
    requires sep == '|'
    ensures Join(["03:04:05", "alice", "d", "256", "0", "1", "2", "3"], sep) == "03:04:05|alice|d|256|0|1|2|3"
  {
    SaveLineExampleJoinFrom2(sep);
    JoinStep("03:04:05", ["alice", "d", "256", "0", "1", "2", "3"], sep, "alice|d|256|0|1|2|3");
    assert ["03:04:05"] + ["alice", "d", "256", "0", "1", "2", "3"] == ["03:04:05", "alice", "d", "256", "0", "1", "2", "3"];
    assert "03:04:05" + [sep] == "03:04:05|";
    assert "03:04:05|" + "alice|d|256|0|1|2|3" == "03:04:05|alice|d|256|0|1|2|3";
  }

  /** The example's date field followed by the rest of its line: kept apart
      from the Join steps so that the solver compares the two texts alone. */
  lemma SaveLineExampleText()
    ensures "2020-01-02|" + "03:04:05|alice|d|256|0|1|2|3" == "2020-01-02|03:04:05|alice|d|256|0|1|2|3"
  {
  }

  lemma SaveLineExampleJoin(sep: char)
    requires sep == '|'
    ensures Join(["2020-01-02", "03:04:05", "alice", "d", "256", "0", "1", "2", "3"], sep) == "2020-01-02|03:04:05|alice|d|256|0|1|2|3"
  {
    SaveLineExampleJoinFrom1(sep);
    JoinStep("2020-01-02", ["03:04:05", "alice", "d", "256", "0", "1", "2", "3"], sep, "03:04:05|alice|d|256|0|1|2|3");
    assert ["2020-01-02"] + ["03:04:05", "alice", "d", "256", "0", "1", "2", "3"] == ["2020-01-02", "03:04:05", "alice", "d", "256", "0", "1", "2", "3"];
    assert "2020-01-02" + [sep] == "2020-01-02|";
    SaveLineExampleText();
  }

  /** alice's destruction of block 256:0 at (1, 2, 3) on 2020-01-02 at
      03:04:05 is saved as this line. */
  lemma SaveLineExample(time: int)
    ensures SaveFields(EditRecord(time, "alice", false, 1, 2, 3, BlockType(256, 0)),
                       DateTime(2020, 1, 2, 3, 4, 5))
         == ["2020-01-02", "03:04:05", "alice", "d", "256", "0", "1", "2", "3"]
    ensures SaveLine(EditRecord(time, "alice", false, 1, 2, 3, BlockType(256, 0)),
                     DateTime(2020, 1, 2, 3, 4, 5))
         == "2020-01-02|03:04:05|alice|d|256|0|1|2|3\n"
  {
    SaveLineExampleYear();
    SaveLineExampleDecimals();
    SaveLineExamplePads();
    var r := EditRecord(time, "alice", false, 1, 2, 3, BlockType(256, 0));
    var t := DateTime(2020, 1, 2, 3, 4, 5);
    assert DateField(t) == "2020-01-02";
    assert TimeField(t) == "03:04:05";
    assert NumberFields(r) == ["256", "0", "1", "2", "3"];
    var f := SaveFields(r, t);
    assert f == ["2020-01-02", "03:04:05", "alice", "d", "256", "0", "1", "2", "3"];
    SaveLineExampleJoin('|');
  }

  /** The edits of one player, oldest first. */
  class PlayerEditSet {
    const player: string
    const before: Order
    var edits: seq<BlockEdit>
    var visible: bool

    ghost predicate Valid()
      reads this
    {
      StrictTotalOrder(before) && Ordered(before, edits)
    }

    constructor (player: string, before: Order)
      requires StrictTotalOrder(before)
      ensures Valid()
      ensures this.player == player && this.before == before
      ensures edits == [] && visible
    {
      this.player := player;
      this.before := before;
      edits := [];
      visible := true;
    }

    /** findEdit: the oldest edit at (x, y, z), or null. */
    method FindEdit(x: int, y: int, z: int) returns (found: BlockEdit?)
      requires Valid()
      ensures found == null <==> forall e :: e in edits ==> !At(e.record, x, y, z)
      ensures found != null ==> found in edits && At(found.record, x, y, z)
      ensures found != null ==> forall e :: e in edits && At(e.record, x, y, z) ==>
        e == found || before(found.record, e.record)
    {
      var i := 0;
      while i < |edits|
        invariant 0 <= i <= |edits|
        invariant forall j :: 0 <= j < i ==> !At(edits[j].record, x, y, z)
      {
        if At(edits[i].record, x, y, z) {
          assert FirstAt(edits, x, y, z) == i;
          FirstAtIsOldest(before, edits, x, y, z);
          return edits[i];
        }
        i := i + 1;
      }
      return null;
    }

    /** getEditBefore: the greatest edit ordered strictly before `edit`, or
        null. */
    method GetEditBefore(edit: BlockEdit) returns (r: BlockEdit?)
      requires Valid()
      ensures r == null <==> forall e :: e in edits ==> !before(e.record, edit.record)
      ensures r != null ==> r in edits && before(r.record, edit.record)
      ensures r != null ==> forall e :: e in edits && before(e.record, edit.record) ==>
        e == r || before(e.record, r.record)
    {
      var k := LastBefore(before, edits, edit.record);
      r := if k < 0 then null else edits[k];
    }

    /** getEditAfter: the least edit ordered strictly after `edit`, or null. */
    method GetEditAfter(edit: BlockEdit) returns (r: BlockEdit?)
      requires Valid()
      ensures r == null <==> forall e :: e in edits ==> !before(edit.record, e.record)
      ensures r != null ==> r in edits && before(edit.record, r.record)
      ensures r != null ==> forall e :: e in edits && before(edit.record, e.record) ==>
        e == r || before(r.record, e.record)
    {
      var k := FirstAfter(before, edits, edit.record);
      r := if k == |edits| then null else edits[k];
    }

    /** addBlockEdit: insert into the ordered set and point the edit back at
        this store. */
    method AddBlockEdit(edit: BlockEdit)
      requires Valid()
      modifies this, edit
      ensures Valid()
      ensures edits == Insert(before, old(edits), edit)
      ensures edit.record in Records(old(edits)) ==> edits == old(edits)
      ensures edit.record !in Records(old(edits)) ==>
        |edits| == |old(edits)| + 1 && multiset(edits) == multiset(old(edits)) + multiset{edit}
      ensures edit.playerEditSet == this
      ensures visible == old(visible)
    {
      InsertOrdered(before, edits, edit);
      InsertElements(before, edits, edit);
      edits := Insert(before, edits, edit);
      edit.playerEditSet := this;
    }

    /** getBlockEditCount: the number of edits in the set. */
    method GetBlockEditCount() returns (n: int)
      ensures n == |edits|
    {
      n := |edits|;
    }

    method SetVisible(visible: bool)
      modifies this`visible
      ensures this.visible == visible
    {
      this.visible := visible;
    }

    method IsVisible() returns (v: bool)
      ensures v == visible
    {
      v := visible;
    }

    /** save: one line per edit, oldest first, and the number of lines. The
        calendar decomposition of a time is the parameter `calendar`. */
    method Save(calendar: int -> DateTime) returns (lines: seq<string>, editCount: int)
      ensures editCount == |edits| == |lines|
      ensures forall i :: 0 <= i < |edits| ==>
        lines[i] == SaveLine(edits[i].record, calendar(edits[i].record.time))
    {
      var format := (e: BlockEdit) => SaveLine(e.record, calendar(e.record.time));
      lines := [];
      editCount := 0;
      for i := 0 to |edits|
        invariant editCount == |lines| == i
        invariant forall j :: 0 <= j < i ==> lines[j] == format(edits[j])
      {
        lines := lines + [format(edits[i])];
        editCount := editCount + 1;
      }
    }
  }
}
