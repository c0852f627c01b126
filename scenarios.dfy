/** Sequences of chat lines run through the analyses, and the outbound
    commands and stored edits they lead to. */
module Scenarios {
  import opened Wrappers
  import opened Numbers
  import opened Db
  import opened LbCoords
  import opened RegionInfo

  /** A page line within the ceiling, then any number of result lines: one
      request for the next page, and only one, however many lines follow. */
  method PageThenResults(config: Config, c: Collaborators, page: seq<string>, lines: seq<seq<string>>)
    returns (outbox: seq<string>)
    requires config.autoPage && PageParses(page)
    requires 0 < ParseInt(page[0]).value < ParseInt(page[1]).value <= config.maxAutoPages
    requires |lines| >= 1 && forall k :: 0 <= k < |lines| ==> DecodeCoord(lines[k], c).Some?
    ensures outbox == [PageCommand(ParseInt(page[0]).value + 1)]
  {
    var a := new LbCoordsAnalysis();
    var _ := a.OnMatchedChat(Page, page, config, c);
    var _ := a.OnMatchedChat(Coord, lines[0], config, c);
    var i := 1;
    while i < |lines|
      invariant 1 <= i <= |lines|
      invariant a.Valid() && a.currentPage == 0 && a.pageCount == 0
      invariant a.outbox == [PageCommand(ParseInt(page[0]).value + 1)]
    {
      var _ := a.OnMatchedChat(Coord, lines[i], config, c);
      i := i + 1;
    }
    outbox := a.outbox;
  }

  predicate IsResultLine(line: LbLine) {
    line.Coord? || line.CoordKills? || line.CoordReplaced?
  }

  /** A page line whose page count is over the ceiling: no result line of
      any kind that follows asks for another page. */
  method OverCeilingNeverPages(config: Config, c: Collaborators, page: seq<string>,
                               lines: seq<(LbLine, seq<string>)>)
    returns (outbox: seq<string>)
    requires PageParses(page) && ParseInt(page[1]).value > config.maxAutoPages
    requires forall k :: 0 <= k < |lines| ==> IsResultLine(lines[k].0)
    ensures outbox == []
  {
    var a := new LbCoordsAnalysis();
    var _ := a.OnMatchedChat(Page, page, config, c);
    for i := 0 to |lines|
      invariant a.Valid() && a.currentPage == 0 && a.pageCount == 0 && a.outbox == []
    {
      var _ := a.OnMatchedChat(lines[i].0, lines[i].1, config, c);
    }
    outbox := a.outbox;
  }

  /** The page numbers of an earlier query do not leak into a later one: a
      header between them clears them, so a result line with no page line
      of its own asks for nothing. */
  method HeaderClearsStalePages(config: Config, c: Collaborators, page: seq<string>, header: Header,
                                line: seq<string>)
    returns (outbox: seq<string>)
    requires PageParses(page)
    ensures outbox == []
  {
    var a := new LbCoordsAnalysis();
    var _ := a.OnMatchedChat(Page, page, config, c);
    var _ := a.OnMatchedChat(Header(header), [], config, c);
    var _ := a.OnMatchedChat(Coord, line, config, c);
    outbox := a.outbox;
  }

  /** A replacement line stores one destruction of the old block; the new
      block is not stored. */
  method ReplacementStoresOldBlock(config: Config, c: Collaborators, g: seq<string>)
    returns (tasks: seq<EditRecord>)
    requires DecodeReplaced(g, c).Some?
    ensures |tasks| == 1 && !tasks[0].creation && tasks[0].blockType == c.blockTypeByName(g[6])
  {
    var a := new LbCoordsAnalysis();
    var _ := a.OnMatchedChat(CoordReplaced, g, config, c);
    tasks := a.tasks;
  }

  /** Two edits at one block, stored newest first: findEdit still returns
      the older one. */
  method OldestMatchWins(before: Order, older: EditRecord, newer: EditRecord)
    returns (found: BlockEdit?)
    requires StrictTotalOrder(before) && TimeFirst(before)
    requires older.time < newer.time
    requires At(newer, older.x, older.y, older.z)
    ensures found != null && found.record == older
  {
    var store := new PlayerEditSet(newer.player, before);
    var n := new BlockEdit(newer);
    var o := new BlockEdit(older);
    store.AddBlockEdit(n);
    store.AddBlockEdit(o);
    assert store.edits == [o, n];
    found := store.FindEdit(older.x, older.y, older.z);
  }

  /** Two edits at the same time that differ are both kept. */
  method SameTimeBothKept(before: Order, a: EditRecord, b: EditRecord) returns (count: int)
    requires StrictTotalOrder(before) && a != b
    ensures count == 2
  {
    var store := new PlayerEditSet(a.player, before);
    var ea := new BlockEdit(a);
    var eb := new BlockEdit(b);
    store.AddBlockEdit(ea);
    store.AddBlockEdit(eb);
    count := store.GetBlockEditCount();
  }

  /** A list of three regions seen at time t0: three "/region info"
      commands, the next issue held back by two chat delays, and a second
      list at t1 issued in full or dropped in full. */
  method RegionBurst(names: seq<string>, t0: int, t1: int, regionInfoTimeoutMs: nat, chatTimeoutMs: nat)
    returns (first: seq<string>, second: seq<string>, lastCommandTime: int)
    requires |names| == 3 && forall k :: 0 <= k < 3 ==> IsRegionName(names[k])
    requires t0 > regionInfoTimeoutMs
    ensures first == Commands(names)
    ensures lastCommandTime == t0 + 2 * chatTimeoutMs
    ensures second == if t1 - lastCommandTime > regionInfoTimeoutMs then Commands(names) else []
  {
    var a := new RegionInfoAnalysis();
    var listing := JoinWith(names, ", ");
    RegionNamesOfListing(names, ", ");
    var _ := a.OnMatchedChat(listing, t0, regionInfoTimeoutMs, chatTimeoutMs);
    first := a.outbox;
    lastCommandTime := a.lastCommandTime;
    var _ := a.OnMatchedChat(listing, t1, regionInfoTimeoutMs, chatTimeoutMs);
    second := a.outbox[|first|..];
  }
}
