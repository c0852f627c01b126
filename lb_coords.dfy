/** LbCoordsAnalysis: the handlers for LogBlock's "/lb coords" results, page
    lines and headers.

    A handler receives the groups captured by its pattern (the patterns of
    LogBlockPatterns are not part of this model): groups[i - 1] is
    m.group(i) and |groups| is m.groupCount(). Reading a group past the end
    throws, as Matcher.group does. Queuing an AddBlockEditTask on the
    SyncTaskQueue is an append to `tasks`; Controller.serverChat is an append
    to `outbox`. */
module LbCoords {
  import opened Wrappers
  import opened Numbers
  import opened Db

  /** Year, month and day as TimeStamp.parseYMD returns them. */
  datatype Ymd = Ymd(year: int, month: int, day: int)

  /** What the handlers call outside this model: TimeStamp.parseYMD (None
      where it throws), TimeStamp.toMillis, and the BlockTypeRegistry
      lookups by block name and by kill name. The lookups never fail: an
      unknown name has a type of its own. */
  datatype Collaborators = Collaborators(
    parseYMD: string -> Option<Ymd>,
    toMillis: (Ymd, int, int, int) -> int,
    blockTypeByName: string -> BlockType,
    killTypeByName: string -> BlockType)

  /** The settings the analysis reads from Configuration. */
  datatype Config = Config(autoPage: bool, maxAutoPages: int)

  /** The time of a result line: group 1 (the result index) must be a
      number, group 2 is the date and groups 3 to 5 the hour, minute and
      second. */
  function DecodeTime(g: seq<string>, c: Collaborators): (r: Option<int>)
    requires |g| >= 5
    ensures r.Some? <==> ParseInt(g[0]).Some? && c.parseYMD(g[1]).Some?
                         && ParseInt(g[2]).Some? && ParseInt(g[3]).Some? && ParseInt(g[4]).Some?
    ensures r.Some? ==> r.value == c.toMillis(c.parseYMD(g[1]).value,
      ParseInt(g[2]).value, ParseInt(g[3]).value, ParseInt(g[4]).value)
  {
    var index :- ParseInt(g[0]);
    var ymd :- c.parseYMD(g[1]);
    var hour :- ParseInt(g[2]);
    var minute :- ParseInt(g[3]);
    var second :- ParseInt(g[4]);
    Some(c.toMillis(ymd, hour, minute, second))
  }

  predicate ParsesAt(g: seq<string>, k: nat)
    requires k + 3 <= |g|
  {
    ParseInt(g[k]).Some? && ParseInt(g[k + 1]).Some? && ParseInt(g[k + 2]).Some?
  }

  /** The index of the x group: a sign line has four extra groups, 9 to 12,
      before its coordinates. */
  function CoordGroup(groupCount: nat): nat {
    if groupCount == 15 then 12 else 8
  }

  /** lbCoord: a creation or destruction line. */
  function DecodeCoord(g: seq<string>, c: Collaborators): (r: Option<EditRecord>)
    ensures r.Some? <==> |g| >= 11 && DecodeTime(g, c).Some? && ParsesAt(g, CoordGroup(|g|))
    ensures r.Some? ==> (r.value.creation <==> g[6] == "created")
    ensures r.Some? ==> var k := CoordGroup(|g|);
      && ParseInt(g[k]) == Some(r.value.x)
      && ParseInt(g[k + 1]) == Some(r.value.y)
      && ParseInt(g[k + 2]) == Some(r.value.z)
    ensures r.Some? ==> r.value.player == g[5] && r.value.blockType == c.blockTypeByName(g[7])
    ensures r.Some? ==> r.value.time == DecodeTime(g, c).value
  {
    if |g| < 11 then None
    else
      var time :- DecodeTime(g, c);
      var k := CoordGroup(|g|);
      var x :- ParseInt(g[k]);
      var y :- ParseInt(g[k + 1]);
      var z :- ParseInt(g[k + 2]);
      Some(EditRecord(time, g[5], g[6] == "created", x, y, z, c.blockTypeByName(g[7])))
  }

  /** lbCoordKills: a kill is stored as the destruction of the victim's
      kill type, at the coordinates in groups 8 to 10; group 11, the weapon,
      must be present. */
  function DecodeKill(g: seq<string>, c: Collaborators): (r: Option<EditRecord>)
    ensures r.Some? <==> |g| >= 11 && DecodeTime(g, c).Some? && ParsesAt(g, 7)
    ensures r.Some? ==> !r.value.creation
    ensures r.Some? ==>
      && ParseInt(g[7]) == Some(r.value.x)
      && ParseInt(g[8]) == Some(r.value.y)
      && ParseInt(g[9]) == Some(r.value.z)
    ensures r.Some? ==> r.value.player == g[5] && r.value.blockType == c.killTypeByName(g[6])
    ensures r.Some? ==> r.value.time == DecodeTime(g, c).value
  {
    if |g| < 11 then None
    else
      var time :- DecodeTime(g, c);
      var x :- ParseInt(g[7]);
      var y :- ParseInt(g[8]);
      var z :- ParseInt(g[9]);
      Some(EditRecord(time, g[5], false, x, y, z, c.killTypeByName(g[6])))
  }

  /** lbCoordReplaced: only the destruction of the old block (group 7) is
      stored; the new block (group 8) is never read. */
  function DecodeReplaced(g: seq<string>, c: Collaborators): (r: Option<EditRecord>)
    ensures r.Some? <==> |g| >= 11 && DecodeTime(g, c).Some? && ParsesAt(g, 8)
    ensures r.Some? ==> !r.value.creation
    ensures r.Some? ==>
      && ParseInt(g[8]) == Some(r.value.x)
      && ParseInt(g[9]) == Some(r.value.y)
      && ParseInt(g[10]) == Some(r.value.z)
    ensures r.Some? ==> r.value.player == g[5] && r.value.blockType == c.blockTypeByName(g[6])
    ensures r.Some? ==> r.value.time == DecodeTime(g, c).value
  {
    if |g| < 11 then None
    else
      var time :- DecodeTime(g, c);
      var x :- ParseInt(g[8]);
      var y :- ParseInt(g[9]);
      var z :- ParseInt(g[10]);
      Some(EditRecord(time, g[5], false, x, y, z, c.blockTypeByName(g[6])))
  }

  /** The new block of a replacement line has no effect on what is stored. */
  lemma ReplacedIgnoresNewBlock(g: seq<string>, c: Collaborators, newBlock: string)
    requires |g| >= 8
    ensures DecodeReplaced(g[7 := newBlock], c) == DecodeReplaced(g, c)
  {
    var h := g[7 := newBlock];
    if |g| >= 11 {
      assert h[..7] == g[..7] && h[8..] == g[8..];
      assert DecodeTime(h, c) == DecodeTime(g, c);
    }
  }

  /** The groups 1 to 5 of a result line: the index as %d, then the date,
      then the hour, minute and second as two digits each, as chat shows
      them ("03:04:05"). */
  function TimeGroups(index: int, date: string, hour: int, minute: int, second: int): seq<string> {
    [Decimal(index), date, ZeroPad2(hour), ZeroPad2(minute), ZeroPad2(second)]
  }

  lemma TimeGroupsDecode(g: seq<string>, c: Collaborators, index: int, date: string, ymd: Ymd,
                         hour: int, minute: int, second: int)
    requires |g| >= 5 && g[..5] == TimeGroups(index, date, hour, minute, second)
    requires IsInt32(index) && IsInt32(hour) && IsInt32(minute) && IsInt32(second)
    requires c.parseYMD(date) == Some(ymd)
    ensures DecodeTime(g, c) == Some(c.toMillis(ymd, hour, minute, second))
  {
    assert g[0] == Decimal(index) && g[1] == date;
    assert g[2] == ZeroPad2(hour) && g[3] == ZeroPad2(minute) && g[4] == ZeroPad2(second);
    ParseDecimal(index);
    ZeroPad2Reads(hour);
    ZeroPad2Reads(minute);
    ZeroPad2Reads(second);
  }

  /** A coords line built from an edit's fields decodes to that edit, with
      or without the four sign groups. */
  lemma CoordLineDecodes(c: Collaborators, index: int, date: string, ymd: Ymd,
                         hour: int, minute: int, second: int, player: string,
                         action: string, block: string, signs: seq<string>, x: int, y: int, z: int)
    requires |signs| == 0 || |signs| == 4
    requires IsInt32(index) && IsInt32(hour) && IsInt32(minute) && IsInt32(second)
    requires IsInt32(x) && IsInt32(y) && IsInt32(z)
    requires c.parseYMD(date) == Some(ymd)
    ensures var g := TimeGroups(index, date, hour, minute, second) + [player, action, block]
                     + signs + [Decimal(x), Decimal(y), Decimal(z)];
      DecodeCoord(g, c) == Some(EditRecord(c.toMillis(ymd, hour, minute, second), player,
                                           action == "created", x, y, z, c.blockTypeByName(block)))
  {
    var head := TimeGroups(index, date, hour, minute, second) + [player, action, block];
    var coords := [Decimal(x), Decimal(y), Decimal(z)];
    var g := head + signs + coords;
    assert |head| == 8 && |g| == 11 + |signs|;
    assert g[..5] == TimeGroups(index, date, hour, minute, second);
    TimeGroupsDecode(g, c, index, date, ymd, hour, minute, second);
    var k := CoordGroup(|g|);
    assert k == 8 + |signs|;
    assert g[k..] == coords;
    assert g[k] == Decimal(x) && g[k + 1] == Decimal(y) && g[k + 2] == Decimal(z);
    assert g[5] == player && g[6] == action && g[7] == block;
    ParseDecimal(x);
    ParseDecimal(y);
    ParseDecimal(z);
  }

  /** A kill line built from a kill's fields decodes to the destruction of
      the victim's kill type. */
  lemma KillLineDecodes(c: Collaborators, index: int, date: string, ymd: Ymd,
                        hour: int, minute: int, second: int, player: string,
                        victim: string, x: int, y: int, z: int, weapon: string)
    requires IsInt32(index) && IsInt32(hour) && IsInt32(minute) && IsInt32(second)
    requires IsInt32(x) && IsInt32(y) && IsInt32(z)
    requires c.parseYMD(date) == Some(ymd)
    ensures var g := TimeGroups(index, date, hour, minute, second)
                     + [player, victim, Decimal(x), Decimal(y), Decimal(z), weapon];
      DecodeKill(g, c) == Some(EditRecord(c.toMillis(ymd, hour, minute, second), player,
                                          false, x, y, z, c.killTypeByName(victim)))
  {
    var g := TimeGroups(index, date, hour, minute, second)
             + [player, victim, Decimal(x), Decimal(y), Decimal(z), weapon];
    assert g[..5] == TimeGroups(index, date, hour, minute, second);
    TimeGroupsDecode(g, c, index, date, ymd, hour, minute, second);
    assert g[7] == Decimal(x) && g[8] == Decimal(y) && g[9] == Decimal(z);
    ParseDecimal(x);
    ParseDecimal(y);
    ParseDecimal(z);
  }

  /** A replacement line decodes to the destruction of the old block,
      whatever the new block is. */
  lemma ReplacedLineDecodes(c: Collaborators, index: int, date: string, ymd: Ymd,
                            hour: int, minute: int, second: int, player: string,
                            oldBlock: string, newBlock: string, x: int, y: int, z: int)
    requires IsInt32(index) && IsInt32(hour) && IsInt32(minute) && IsInt32(second)
    requires IsInt32(x) && IsInt32(y) && IsInt32(z)
    requires c.parseYMD(date) == Some(ymd)
    ensures var g := TimeGroups(index, date, hour, minute, second)
                     + [player, oldBlock, newBlock, Decimal(x), Decimal(y), Decimal(z)];
      DecodeReplaced(g, c) == Some(EditRecord(c.toMillis(ymd, hour, minute, second), player,
                                              false, x, y, z, c.blockTypeByName(oldBlock)))
  {
    var g := TimeGroups(index, date, hour, minute, second)
             + [player, oldBlock, newBlock, Decimal(x), Decimal(y), Decimal(z)];
    assert g[..5] == TimeGroups(index, date, hour, minute, second);
    TimeGroupsDecode(g, c, index, date, ymd, hour, minute, second);
    assert g[8] == Decimal(x) && g[9] == Decimal(y) && g[10] == Decimal(z);
    ParseDecimal(x);
    ParseDecimal(y);
    ParseDecimal(z);
  }

  /** The colour codes of red, orange, yellow, light green, light blue,
      purple and magenta, the cycle used to tell result clusters apart. */
  const ColourCycle: seq<char> := ['c', '6', 'e', 'a', 'b', '5', 'd']

  /** Results closer than this to the previous one keep its colour. */
  const ColourProximityLimit: int := 4

  function SquaredDistance(x1: int, y1: int, z1: int, x2: int, y2: int, z2: int): nat {
    (x2 - x1) * (x2 - x1) + (y2 - y1) * (y2 - y1) + (z2 - z1) * (z2 - z1)
  }

  /** The squared distance as getChatColourChar writes it: every difference,
      product and sum is a Java int and wraps to 32 bits. The conversion of
      the sum to float that follows does not change the comparison with 16,
      because that conversion is monotone and 16 and 17 are exact floats. */
  function SquaredDistance32(x1: int, y1: int, z1: int, x2: int, y2: int, z2: int): (d: int)
    ensures IsInt32(d)
  {
    var dx, dy, dz := Wrap32(x2 - x1), Wrap32(y2 - y1), Wrap32(z2 - z1);
    Wrap32(Wrap32(Wrap32(dx * dx) + Wrap32(dy * dy)) + Wrap32(dz * dz))
  }

  /** As written, a result 65536 blocks along x from the last one keeps the
      last colour: 65536 * 65536 wraps to 0, although the true squared
      distance is far above the limit. */
  lemma WrappedDistanceMissesFarResult(index: int)
    requires 0 <= index < |ColourCycle|
    ensures SquaredDistance32(0, 0, 0, 65536, 0, 0) == 0
    ensures NextColourIndex(index, SquaredDistance32(0, 0, 0, 65536, 0, 0)) == index
    ensures NextColourIndex(index, SquaredDistance(0, 0, 0, 65536, 0, 0)) != index
  {
    assert Wrap32(65536 * 65536) == 0;
  }

  lemma SquareBound(a: int, b: int)
    requires 0 <= b && -b <= a <= b
    ensures 0 <= a * a <= b * b
  {
    var m := if a < 0 then -a else a;
    assert a * a == m * m;
    assert m * m <= m * b <= b * b;
  }

  /** Within 26754 blocks on every axis nothing wraps, so the code as written
      and the exact distance choose the same colour. */
  lemma WrappedDistanceAgreesNearby(x1: int, y1: int, z1: int, x2: int, y2: int, z2: int)
    requires IsInt32(x1) && IsInt32(y1) && IsInt32(z1)
    requires IsInt32(x2) && IsInt32(y2) && IsInt32(z2)
    requires -26754 <= x2 - x1 <= 26754 && -26754 <= y2 - y1 <= 26754 && -26754 <= z2 - z1 <= 26754
    ensures SquaredDistance32(x1, y1, z1, x2, y2, z2) == SquaredDistance(x1, y1, z1, x2, y2, z2)
  {
    var dx, dy, dz := x2 - x1, y2 - y1, z2 - z1;
    SquareBound(dx, 26754);
    SquareBound(dy, 26754);
    SquareBound(dz, 26754);
    assert Wrap32(dx) == dx && Wrap32(dy) == dy && Wrap32(dz) == dz;
    assert Wrap32(dx * dx) == dx * dx && Wrap32(dy * dy) == dy * dy && Wrap32(dz * dz) == dz * dz;
    assert Wrap32(dx * dx + dy * dy) == dx * dx + dy * dy;
  }

  /** The colour index after a result at squared distance d2 from the last
      one: the next colour, wrapping, when it is farther than the limit. */
  function NextColourIndex(index: int, d2: int): (r: int)
    requires 0 <= index < |ColourCycle|
    ensures 0 <= r < |ColourCycle|
    ensures r != index <==> d2 > ColourProximityLimit * ColourProximityLimit
    ensures d2 > ColourProximityLimit * ColourProximityLimit ==> r == (index + 1) % |ColourCycle|
  {
    if d2 > ColourProximityLimit * ColourProximityLimit then (index + 1) % |ColourCycle| else index
  }

  /** requestNextPage asks for another page only with auto-paging on and a
      current page that is set, short of the page count, with the page count
      within the configured maximum. */
  predicate WantsNextPage(config: Config, currentPage: int, pageCount: int)
    ensures WantsNextPage(config, currentPage, pageCount) ==>
      currentPage + 1 <= pageCount <= config.maxAutoPages
  {
    config.autoPage && currentPage != 0 && currentPage < pageCount && pageCount <= config.maxAutoPages
  }

  /** "/lb page %d". */
  function PageCommand(page: int): (cmd: string)
    ensures |cmd| > 9 && cmd[..9] == "/lb page "
    ensures IsInt32(page) ==> ParseInt(cmd[9..]) == Some(page)
  {
    var cmd := "/lb page " + Decimal(page);
    DecimalText(page);
    if IsInt32(page) then
      assert cmd[9..] == Decimal(page);
      ParseDecimal(page);
      cmd
    else
      cmd
  }

  /** Groups 1 and 2 of a page line, the current page and the page count,
      both parse. */
  predicate PageParses(g: seq<string>) {
    |g| >= 2 && ParseInt(g[0]).Some? && ParseInt(g[1]).Some?
  }

  /** The patterns the analysis registers a handler for. */
  datatype Header = NoResults | Changes | Blocks | SumBlocks | SumPlayers | Searching
                  | Ratio | RatioCurrent | TimeCheck | Block
  datatype LbLine = Coord | CoordKills | CoordReplaced | Page | Header(header: Header)

  /** What a chat handler does with the line: return whether it is still
      shown, or throw. */
  datatype HandlerResult = Returned(echo: bool) | Raised

  function Queued(edit: Option<EditRecord>): seq<EditRecord> {
    if edit.Some? then [edit.value] else []
  }

  class LbCoordsAnalysis {
    var currentPage: int
    var pageCount: int
    var colourIndex: int
    var lastX: int
    var lastY: int
    var lastZ: int
    var tasks: seq<EditRecord>
    var outbox: seq<string>

    ghost predicate Valid()
      reads this
    {
      0 <= colourIndex < |ColourCycle| && IsInt32(currentPage) && IsInt32(pageCount)
    }

    /** The colour starts at the end of the cycle, since the first result is
        far from (0, 0, 0) and moves it on to the first colour. */
    constructor ()
      ensures Valid()
      ensures currentPage == 0 && pageCount == 0
      ensures colourIndex == |ColourCycle| - 1 && lastX == 0 && lastY == 0 && lastZ == 0
      ensures tasks == [] && outbox == []
    {
      currentPage, pageCount := 0, 0;
      colourIndex := |ColourCycle| - 1;
      lastX, lastY, lastZ := 0, 0, 0;
      tasks, outbox := [], [];
    }

    twostate predicate NextPageHandled(config: Config)
      reads this
    {
      if WantsNextPage(config, old(currentPage), old(pageCount)) then
        && outbox == old(outbox) + [PageCommand(old(currentPage) + 1)]
        && currentPage == 0 && pageCount == 0
      else
        outbox == old(outbox) && currentPage == old(currentPage) && pageCount == old(pageCount)
    }

    twostate predicate ColourStepped(x: int, y: int, z: int)
      reads this
    {
      && 0 <= old(colourIndex) < |ColourCycle|
      && colourIndex == NextColourIndex(old(colourIndex),
                                        SquaredDistance(old(lastX), old(lastY), old(lastZ), x, y, z))
      && lastX == x && lastY == y && lastZ == z
    }

    /** What every coords handler does with a decoded edit: queue it, move
        the colour on, and ask for the next page when one is due. */
    twostate predicate Accepted(edit: EditRecord, config: Config)
      reads this
    {
      && tasks == old(tasks) + [edit]
      && ColourStepped(edit.x, edit.y, edit.z)
      && NextPageHandled(config)
    }

    /** A coords handler's whole effect: a line that decodes is accepted, one
        that does not (the exception caught inside the handler) changes
        nothing. */
    twostate predicate Handled(edit: Option<EditRecord>, config: Config)
      reads this
    {
      if edit.Some? then Accepted(edit.value, config) else unchanged(this)
    }

    /** The dispatch of the constructor's handler table: coords lines are
        never echoed, page and header lines are. */
    method OnMatchedChat(line: LbLine, g: seq<string>, config: Config, c: Collaborators)
      returns (r: HandlerResult)
      requires Valid()
      modifies this
      ensures Valid()
      ensures line.Coord? ==> r == Returned(false) && Handled(DecodeCoord(g, c), config)
      ensures line.CoordKills? ==> r == Returned(false) && Handled(DecodeKill(g, c), config)
      ensures line.CoordReplaced? ==> r == Returned(false) && Handled(DecodeReplaced(g, c), config)
      ensures line.Coord? || line.CoordKills? || line.CoordReplaced? ==>
        tasks == old(tasks) + Queued(match line
                                     case Coord => DecodeCoord(g, c)
                                     case CoordKills => DecodeKill(g, c)
                                     case _ => DecodeReplaced(g, c))
      ensures line.Page? ==> r == (if PageParses(g) then Returned(true) else Raised)
      ensures line.Page? && !PageParses(g) ==> currentPage == old(currentPage) && pageCount == old(pageCount)
      ensures line.Page? && PageParses(g) ==>
        if ParseInt(g[1]).value <= config.maxAutoPages then
          currentPage == ParseInt(g[0]).value && pageCount == ParseInt(g[1]).value
        else
          currentPage == 0 && pageCount == 0
      ensures line.Header? ==> r == Returned(true) && currentPage == 0 && pageCount == 0
      ensures line.Page? || line.Header? ==>
        && tasks == old(tasks) && outbox == old(outbox) && colourIndex == old(colourIndex)
        && lastX == old(lastX) && lastY == old(lastY) && lastZ == old(lastZ)
    {
      match line
      case Coord =>
        LbCoord(g, config, c);
        r := Returned(false);
      case CoordKills =>
        LbCoordKills(g, config, c);
        r := Returned(false);
      case CoordReplaced =>
        LbCoordReplaced(g, config, c);
        r := Returned(false);
      case Page =>
        var parsed := LbPage(g, config);
        r := if parsed then Returned(true) else Raised;
      case Header(_) =>
        LbHeader();
        r := Returned(true);
    }

    /** lbCoord: a line that fails to decode is dropped without effect. */
    method LbCoord(g: seq<string>, config: Config, c: Collaborators)
      requires Valid()
      modifies this
      ensures Valid()
      ensures DecodeCoord(g, c).None? ==> unchanged(this)
      ensures DecodeCoord(g, c).Some? ==> Accepted(DecodeCoord(g, c).value, config)
    {
      var edit := DecodeCoord(g, c);
      if edit.Some? {
        Accept(edit.value, config);
      }
    }

    /** lbCoordKills: a line that fails to decode is dropped without effect. */
    method LbCoordKills(g: seq<string>, config: Config, c: Collaborators)
      requires Valid()
      modifies this
      ensures Valid()
      ensures DecodeKill(g, c).None? ==> unchanged(this)
      ensures DecodeKill(g, c).Some? ==> Accepted(DecodeKill(g, c).value, config)
    {
      var edit := DecodeKill(g, c);
      if edit.Some? {
        Accept(edit.value, config);
      }
    }

    /** lbCoordReplaced: a line that fails to decode is dropped without
        effect. */
    method LbCoordReplaced(g: seq<string>, config: Config, c: Collaborators)
      requires Valid()
      modifies this
      ensures Valid()
      ensures DecodeReplaced(g, c).None? ==> unchanged(this)
      ensures DecodeReplaced(g, c).Some? ==> Accepted(DecodeReplaced(g, c).value, config)
    {
      var edit := DecodeReplaced(g, c);
      if edit.Some? {
        Accept(edit.value, config);
      }
    }

    method Accept(edit: EditRecord, config: Config)
      requires Valid()
      modifies this
      ensures Valid()
      ensures Accepted(edit, config)
    {
      tasks := tasks + [edit];
      var _ := GetChatColourChar(edit.x, edit.y, edit.z);
      RequestNextPage(config);
    }

    /** lbPage: adopt the reported page numbers when the page count is
        within the configured maximum, otherwise clear both. A number that
        does not parse throws before anything changes. */
    method LbPage(g: seq<string>, config: Config) returns (parsed: bool)
      requires Valid()
      modifies this`currentPage, this`pageCount
      ensures Valid()
      ensures parsed <==> PageParses(g)
      ensures !parsed ==> currentPage == old(currentPage) && pageCount == old(pageCount)
      ensures parsed ==>
        var reportedPage, reportedCount := ParseInt(g[0]).value, ParseInt(g[1]).value;
        if reportedCount <= config.maxAutoPages then
          currentPage == reportedPage && pageCount == reportedCount
        else
          currentPage == 0 && pageCount == 0
    {
      if !PageParses(g) {
        return false;
      }
      var reportedPage := ParseInt(g[0]).value;
      var reportedCount := ParseInt(g[1]).value;
      if reportedCount <= config.maxAutoPages {
        currentPage := reportedPage;
        pageCount := reportedCount;
      } else {
        currentPage, pageCount := 0, 0;
      }
      parsed := true;
    }

    /** lbHeader: any header forgets the page numbers of an earlier query. */
    method LbHeader()
      requires Valid()
      modifies this`currentPage, this`pageCount
      ensures Valid()
      ensures currentPage == 0 && pageCount == 0
    {
      currentPage, pageCount := 0, 0;
    }

    /** requestNextPage: ask for page currentPage + 1 at most once per page
        line; afterwards no further request is due. */
    method RequestNextPage(config: Config)
      requires Valid()
      modifies this`currentPage, this`pageCount, this`outbox
      ensures Valid()
      ensures NextPageHandled(config)
      ensures WantsNextPage(config, old(currentPage), old(pageCount)) ==>
        IsInt32(old(currentPage) + 1) && old(currentPage) + 1 <= old(pageCount)
      ensures !WantsNextPage(config, currentPage, pageCount)
    {
      if config.autoPage {
        if currentPage != 0 && currentPage < pageCount && pageCount <= config.maxAutoPages {
          outbox := outbox + [PageCommand(currentPage + 1)];
          currentPage, pageCount := 0, 0;
        }
      }
    }

    /** getChatColourChar: move to the next colour when (x, y, z) is more
        than the proximity limit from the last result, and remember it. */
    method GetChatColourChar(x: int, y: int, z: int) returns (code: char)
      requires Valid()
      modifies this`colourIndex, this`lastX, this`lastY, this`lastZ
      ensures Valid()
      ensures ColourStepped(x, y, z)
      ensures code == ColourCycle[colourIndex]
    {
      var distance := SquaredDistance(lastX, lastY, lastZ, x, y, z);
      if distance > ColourProximityLimit * ColourProximityLimit {
        colourIndex := (colourIndex + 1) % |ColourCycle|;
      }
      lastX, lastY, lastZ := x, y, z;
      code := ColourCycle[colourIndex];
    }
  }
}
