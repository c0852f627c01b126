/** RegionInfoAnalysis: when WorldGuard lists the regions at a point, issue
    "/region info" for each of them, at most once per timeout. The wall
    clock is the `now` parameter and the two configured timeouts arrive as
    whole milliseconds; Controller.serverChat is an append to `outbox`. */
module RegionInfo {

  /** The characters of the pattern [a-zA-Z0-9_-]. */
  predicate IsRegionChar(c: char) {
    ('a' <= c <= 'z') || ('A' <= c <= 'Z') || ('0' <= c <= '9') || c == '_' || c == '-'
  }

  /** A non-empty run of region characters: what one match of the pattern
      can be. */
  predicate IsRegionName(s: string) {
    |s| >= 1 && forall i :: 0 <= i < |s| ==> IsRegionChar(s[i])
  }

  predicate NoRegionChars(s: string) {
    forall i :: 0 <= i < |s| ==> !IsRegionChar(s[i])
  }

  /** The length of the longest prefix of s made of region characters: the
      greedy match that starts at s[0]. */
  function RunLength(s: string): (n: nat)
    ensures n <= |s|
    ensures forall i :: 0 <= i < n ==> IsRegionChar(s[i])
    ensures n < |s| ==> !IsRegionChar(s[n])
  {
    if s == [] || !IsRegionChar(s[0]) then 0 else 1 + RunLength(s[1..])
  }

  /** The successive matches of [a-zA-Z0-9_-]+ in s, left to right: each
      find() skips what cannot start a match and takes the longest run
      that does. */
  function RegionNames(s: string): (names: seq<string>)
    ensures forall k :: 0 <= k < |names| ==> IsRegionName(names[k])
    decreases |s|
  {
    if s == [] then []
    else if !IsRegionChar(s[0]) then RegionNames(s[1..])
    else
      var n := RunLength(s);
      [s[..n]] + RegionNames(s[n..])
  }

  /** The region characters of s, in order. */
  function RegionChars(s: string): (r: string)
    ensures forall i :: 0 <= i < |r| ==> IsRegionChar(r[i])
  {
    if s == [] then []
    else if IsRegionChar(s[0]) then [s[0]] + RegionChars(s[1..])
    else RegionChars(s[1..])
  }

  function Concat(names: seq<string>): string {
    if names == [] then [] else names[0] + Concat(names[1..])
  }

  /** "name, name2, name3": names joined by a separator. */
  function JoinWith(names: seq<string>, sep: string): string {
    if |names| == 0 then []
    else if |names| == 1 then names[0]
    else names[0] + sep + JoinWith(names[1..], sep)
  }

  function RegionInfoCommand(name: string): string {
    "/region info " + name
  }

  function Commands(names: seq<string>): (cmds: seq<string>)
    ensures |cmds| == |names|
    ensures forall k :: 0 <= k < |names| ==> cmds[k] == RegionInfoCommand(names[k])
  {
    seq(|names|, k requires 0 <= k < |names| => RegionInfoCommand(names[k]))
  }

  /** A run of region characters followed by an end or by anything else is
      exactly one greedy match. */
  lemma RunLengthOf(name: string, t: string)
    requires IsRegionName(name)
    requires t == [] || !IsRegionChar(t[0])
    ensures RunLength(name + t) == |name|
  {
    var s := name + t;
    assert forall i :: 0 <= i < |name| ==> s[i] == name[i];
    if t != [] {
      assert s[|name|] == t[0];
    }
  }

  /** One find() step at position i: a run from i to j is the next name. */
  lemma RegionNamesAt(s: string, i: nat, j: nat)
    requires i < j <= |s|
    requires forall k :: i <= k < j ==> IsRegionChar(s[k])
    requires j == |s| || !IsRegionChar(s[j])
    ensures RegionNames(s[i..]) == [s[i..j]] + RegionNames(s[j..])
  {
    var t := s[i..];
    assert t == s[i..j] + s[j..];
    RunLengthOf(s[i..j], s[j..]);
    assert t[..j - i] == s[i..j] && t[j - i..] == s[j..];
  }

  /** One find() step at position i: a character outside the pattern is
      skipped. */
  lemma RegionNamesSkip(s: string, i: nat)
    requires i < |s| && !IsRegionChar(s[i])
    ensures RegionNames(s[i..]) == RegionNames(s[i + 1..])
  {
    assert s[i..][1..] == s[i + 1..];
  }

  lemma {:induction false} RegionCharsPrefix(s: string, n: nat)
    requires n <= |s|
    requires forall i :: 0 <= i < n ==> IsRegionChar(s[i])
    ensures RegionChars(s) == s[..n] + RegionChars(s[n..])
    decreases n
  {
    if n > 0 {
      RegionCharsPrefix(s[1..], n - 1);
      assert s[1..][..n - 1] == s[1..n];
      assert s[1..][n - 1..] == s[n..];
      assert s[..n] == [s[0]] + s[1..n];
    }
  }

  /** Taken together, the names are all the region characters of the list,
      in order: nothing is dropped, duplicated or reordered. */
  lemma {:induction false} RegionNamesCover(s: string)
    ensures Concat(RegionNames(s)) == RegionChars(s)
    decreases |s|
  {
    if s == [] {
    } else if !IsRegionChar(s[0]) {
      RegionNamesCover(s[1..]);
    } else {
      var n := RunLength(s);
      RegionNamesCover(s[n..]);
      RegionCharsPrefix(s, n);
      var names := RegionNames(s);
      assert names == [s[..n]] + RegionNames(s[n..]);
      assert names[1..] == RegionNames(s[n..]);
    }
  }

  /** Characters outside the pattern produce no names. */
  lemma {:induction false} SkipSeparator(sep: string, t: string)
    requires NoRegionChars(sep)
    ensures RegionNames(sep + t) == RegionNames(t)
    decreases |sep|
  {
    if sep != [] {
      var s := sep + t;
      assert s[0] == sep[0] && !IsRegionChar(s[0]);
      assert s[1..] == sep[1..] + t;
      SkipSeparator(sep[1..], t);
      assert RegionNames(s) == RegionNames(s[1..]);
    } else {
      assert sep + t == t;
    }
  }

  /** A listing of region names, joined by a separator that contains no
      region character (such as ", "), yields exactly those names, in order
      and with repetitions kept. */
  lemma {:induction false} RegionNamesOfListing(names: seq<string>, sep: string)
    requires forall k :: 0 <= k < |names| ==> IsRegionName(names[k])
    requires |sep| >= 1 && NoRegionChars(sep)
    ensures RegionNames(JoinWith(names, sep)) == names
    decreases |names|
  {
    if |names| == 1 {
      RunLengthOf(names[0], []);
      assert names[0] + [] == names[0];
      var s := names[0];
      assert s[|s|..] == [];
    } else if |names| > 1 {
      var name, rest := names[0], JoinWith(names[1..], sep);
      var s := name + (sep + rest);
      assert JoinWith(names, sep) == s;
      RunLengthOf(name, sep + rest);
      assert s[..|name|] == name;
      assert s[|name|..] == sep + rest;
      SkipSeparator(sep, rest);
      RegionNamesOfListing(names[1..], sep);
    }
  }

  /** gaps[0] + names[0] + gaps[1] + ... + names[n - 1] + gaps[n]. */
  function Interleave(gaps: seq<string>, names: seq<string>): string
    requires |gaps| == |names| + 1
  {
    if names == [] then gaps[0] else gaps[0] + (names[0] + Interleave(gaps[1..], names[1..]))
  }

  /** The length of the longest prefix of s with no region character: what
      find() passes over before the next match. */
  function GapLength(s: string): (m: nat)
    ensures m <= |s|
    ensures forall i :: 0 <= i < m ==> !IsRegionChar(s[i])
    ensures m < |s| ==> IsRegionChar(s[m])
  {
    if s == [] || IsRegionChar(s[0]) then 0 else 1 + GapLength(s[1..])
  }

  /** What lies around the matches of s: the text before the first, between
      each two and after the last. */
  function Gaps(s: string): (gaps: seq<string>)
    ensures |gaps| >= 1
    decreases |s|
  {
    var m := GapLength(s);
    if m == |s| then [s]
    else
      var rest := s[m..];
      var n := RunLength(rest);
      assert n >= 1;
      [s[..m]] + Gaps(rest[n..])
  }

  /** A gap between two matches, and so around every match. */
  predicate Separates(gaps: seq<string>, names: seq<string>) {
    && |gaps| == |names| + 1
    && (forall k :: 0 <= k < |gaps| ==> NoRegionChars(gaps[k]))
    && (forall k :: 0 < k < |names| ==> |gaps[k]| >= 1)
  }

  /** find() passes over a prefix with no region character. */
  lemma {:induction false} SkipGap(s: string, m: nat)
    requires m <= |s| && forall i :: 0 <= i < m ==> !IsRegionChar(s[i])
    ensures RegionNames(s) == RegionNames(s[m..])
    decreases m
  {
    if m == 0 {
      assert s[0..] == s;
    } else {
      SkipGap(s, m - 1);
      RegionNamesSkip(s, m - 1);
    }
  }

  /** A gap of length m and a match of length n in front of an interleaving
      extend it. */
  lemma InterleaveCons(s: string, m: nat, n: nat, gaps: seq<string>, names: seq<string>)
    requires m + n <= |s| && |gaps| == |names| + 1
    requires s[m + n..] == Interleave(gaps, names)
    ensures s == Interleave([s[..m]] + gaps, [s[m..m + n]] + names)
  {
    var gs, ns := [s[..m]] + gaps, [s[m..m + n]] + names;
    assert gs[1..] == gaps && ns[1..] == names;
    assert s == s[..m] + (s[m..m + n] + s[m + n..]);
  }

  /** Gaps and matches, interleaved, give back the text. */
  lemma {:induction false} GapsInterleave(s: string)
    ensures |Gaps(s)| == |RegionNames(s)| + 1
    ensures s == Interleave(Gaps(s), RegionNames(s))
    decreases |s|
  {
    var m := GapLength(s);
    var rest := s[m..];
    SkipGap(s, m);
    if m < |s| {
      var n := RunLength(rest);
      var u := rest[n..];
      assert rest[..n] == s[m..m + n] && u == s[m + n..];
      GapsInterleave(u);
      assert RegionNames(rest) == [rest[..n]] + RegionNames(u);
      InterleaveCons(s, m, n, Gaps(u), RegionNames(u));
    }
  }

  /** Text that starts outside the pattern starts with a non-empty gap. */
  lemma GapsHead(s: string)
    requires s != [] && !IsRegionChar(s[0])
    ensures |Gaps(s)[0]| >= 1
  {
    assert GapLength(s) >= 1;
  }

  /** A gap with no region character in front of separated matches, with
      a further match between them, keeps them separated. */
  lemma SeparatesCons(g0: string, gaps: seq<string>, name: string, names: seq<string>)
    requires NoRegionChars(g0) && Separates(gaps, names)
    requires names != [] ==> |gaps[0]| >= 1
    ensures Separates([g0] + gaps, [name] + names)
  {
    var gs := [g0] + gaps;
    forall k | 0 < k < |gs|
      ensures gs[k] == gaps[k - 1]
    {
    }
  }

  /** The matches are maximal: the gaps around them hold no region
      character, and two successive matches have at least one character
      between them. */
  lemma {:induction false} RegionNamesSeparated(s: string)
    ensures Separates(Gaps(s), RegionNames(s))
    decreases |s|
  {
    var m := GapLength(s);
    var rest := s[m..];
    SkipGap(s, m);
    if m == |s| {
      assert rest == [];
    } else {
      var n := RunLength(rest);
      var u := rest[n..];
      RegionNamesSeparated(u);
      if RegionNames(u) != [] {
        assert u != [] && u[0] == rest[n];
        GapsHead(u);
      }
      assert RegionNames(rest) == [rest[..n]] + RegionNames(u);
      SeparatesCons(s[..m], Gaps(u), rest[..n], RegionNames(u));
    }
  }

  /** The converse: names set apart by such gaps are found again, in order,
      whatever the gaps are ("spawn,shop ,x" as well as "a, b, c"). */
  lemma {:induction false} RegionNamesOfGaps(gaps: seq<string>, names: seq<string>)
    requires forall k :: 0 <= k < |names| ==> IsRegionName(names[k])
    requires Separates(gaps, names)
    ensures RegionNames(Interleave(gaps, names)) == names
    decreases |names|
  {
    if names == [] {
      SkipSeparator(gaps[0], []);
      assert gaps[0] + [] == gaps[0];
    } else {
      var rest := Interleave(gaps[1..], names[1..]);
      assert Separates(gaps[1..], names[1..]) by {
        forall k | 0 <= k < |gaps[1..]|
          ensures NoRegionChars(gaps[1..][k])
        {
          assert gaps[1..][k] == gaps[k + 1];
        }
      }
      RegionNamesOfGaps(gaps[1..], names[1..]);
      if names[1..] != [] {
        assert |gaps[1]| >= 1;
        assert rest == gaps[1] + (names[1] + Interleave(gaps[2..], names[2..])) by {
          assert gaps[1..][1..] == gaps[2..] && names[1..][1..] == names[2..];
        }
        assert rest[0] == gaps[1][0];
      } else {
        assert rest == gaps[1];
      }
      assert rest == [] || !IsRegionChar(rest[0]);
      var name := names[0];
      var t := name + rest;
      RunLengthOf(name, rest);
      assert t[..|name|] == name && t[|name|..] == rest;
      SkipSeparator(gaps[0], t);
      assert Interleave(gaps, names) == gaps[0] + t;
    }
  }

  class RegionInfoAnalysis {
    /** When the last /region info commands were issued, plus the delay the
        chat queue needs to send all of them. */
    var lastCommandTime: int
    var outbox: seq<string>

    /** The field starts at Java's default of 0. */
    constructor ()
      ensures lastCommandTime == 0 && outbox == []
    {
      lastCommandTime := 0;
      outbox := [];
    }

    /** The handler registered for wg.regions: the line is always shown. */
    method OnMatchedChat(regionList: string, now: int, regionInfoTimeoutMs: nat, chatTimeoutMs: nat)
      returns (echo: bool)
      modifies this
      ensures echo
      ensures WgRegionsDone(regionList, now, regionInfoTimeoutMs, chatTimeoutMs)
    {
      WgRegions(regionList, now, regionInfoTimeoutMs, chatTimeoutMs);
      echo := true;
    }

    twostate predicate WgRegionsDone(regionList: string, now: int, regionInfoTimeoutMs: nat,
                                     chatTimeoutMs: nat)
      reads this
    {
      if now - old(lastCommandTime) > regionInfoTimeoutMs then
        var names := RegionNames(regionList);
        && outbox == old(outbox) + Commands(names)
        && lastCommandTime == now + chatTimeoutMs * (if |names| > 1 then |names| - 1 else 0)
      else
        outbox == old(outbox) && lastCommandTime == old(lastCommandTime)
    }

    /** wgRegions: once the region-info timeout has passed since the last
        issue, send one "/region info" per name in the list and hold off
        further issues until the chat queue has sent them all. */
    method WgRegions(regionList: string, now: int, regionInfoTimeoutMs: nat, chatTimeoutMs: nat)
      modifies this
      ensures WgRegionsDone(regionList, now, regionInfoTimeoutMs, chatTimeoutMs)
    {
      if now - lastCommandTime > regionInfoTimeoutMs {
        var regionCount := 0;
        ghost var found: seq<string> := [];
        var s := regionList;
        var i := 0;
        // Each pass of the outer loop is one names.find(); the inner loop
        // extends the match as far as the pattern allows.
        while i < |s|
          invariant 0 <= i <= |s|
          invariant found + RegionNames(s[i..]) == RegionNames(s)
          invariant regionCount == |found|
          invariant outbox == old(outbox) + Commands(found)
          decreases |s| - i
        {
          if IsRegionChar(s[i]) {
            var j := i + 1;
            while j < |s| && IsRegionChar(s[j])
              invariant i < j <= |s|
              invariant forall k :: i <= k < j ==> IsRegionChar(s[k])
              decreases |s| - j
            {
              j := j + 1;
            }
            var name := s[i..j];
            RegionNamesAt(s, i, j);
            outbox := outbox + [RegionInfoCommand(name)];
            regionCount := regionCount + 1;
            found := found + [name];
            i := j;
          } else {
            RegionNamesSkip(s, i);
            i := i + 1;
          }
        }
        assert s[i..] == [];
        lastCommandTime := now + chatTimeoutMs * (if regionCount - 1 > 0 then regionCount - 1 else 0);
      }
    }
  }
}
