/** Reading the last build out of a ninja log. */
module NinjaLog {
  import opened GreedyCut

  /** A log line: a record of five tab-separated fields (the restat field is not kept), or anything else. */
  datatype Line = Malformed | Entry(record: Record)

  /** Command hashes are only compared for equality; the hexadecimal text is read as a number. */
  type Hash = nat

  /** Times are in integral milliseconds, as written in the log. */
  datatype Record = Record(start: int, end: int, name: string, cmdHash: Hash)

  class Target {
    const start: int
    const end: int
    var names: seq<string>
    var weightedDuration: real

    constructor (start: int, end: int)
      ensures this.start == start && this.end == end && names == [] && weightedDuration == 0.0
    {
      this.start, this.end := start, end;
      names, weightedDuration := [], 0.0;
    }

    function Duration(): int { end - start }
  }

  function Records(log: seq<Line>): seq<Record> {
    if log == [] then []
    else Records(log[..|log| - 1]) + match log[|log| - 1] case Malformed => [] case Entry(r) => [r]
  }

  /** rs are the entries of the log at these positions, and there are no others. */
  ghost predicate PicksEntries(log: seq<Line>, rs: seq<Record>, at: seq<nat>) {
    && |at| == |rs| && (forall i, j :: 0 <= i < j < |at| ==> at[i] < at[j])
    && (forall i :: 0 <= i < |at| ==> at[i] < |log| && log[at[i]] == Entry(rs[i]))
    && forall k :: 0 <= k < |log| && log[k].Entry? ==> k in at
  }

  lemma PickEntry(log: seq<Line>, rs: seq<Record>, at: seq<nat>, r: Record)
    requires PicksEntries(log, rs, at)
    ensures PicksEntries(log + [Entry(r)], rs + [r], at + [|log|])
  {
    forall k | 0 <= k < |log| + 1 && (log + [Entry(r)])[k].Entry?
      ensures k in at + [|log|]
    {
      if k < |log| { assert log[k].Entry?; }
    }
  }

  lemma SkipLine(log: seq<Line>, rs: seq<Record>, at: seq<nat>)
    requires PicksEntries(log, rs, at)
    ensures PicksEntries(log + [Malformed], rs, at)
  {
  }

  lemma {:induction false} EntriesOf(log: seq<Line>) returns (at: seq<nat>)
    ensures PicksEntries(log, Records(log), at)
  {
    if log == [] {
      at := [];
    } else {
      hide PicksEntries;
      var n := |log| - 1;
      assert log == log[..n] + [log[n]];
      at := EntriesOf(log[..n]);
      if log[n].Entry? {
        PickEntry(log[..n], Records(log[..n]), at, log[n].record);
        at := at + [n];
      } else {
        SkipLine(log[..n], Records(log[..n]), at);
        assert Records(log) == Records(log[..n]);
      }
    }
  }

  /** The records are the entries of the log, unchanged and in order. */
  lemma RecordsAreEntries(log: seq<Line>) returns (at: seq<nat>)
    ensures |at| == |Records(log)| && forall i, j :: 0 <= i < j < |at| ==> at[i] < at[j]
    ensures forall i :: 0 <= i < |at| ==> at[i] < |log| && log[at[i]] == Entry(Records(log)[i])
    ensures forall k :: 0 <= k < |log| && log[k].Entry? ==> k in at
  {
    at := EntriesOf(log);
  }

  // ----- which records are reported

  /** What one build can have written: end times never decrease, and a command has one interval. */
  ghost predicate IsBuild(rs: seq<Record>) {
    && (forall i, j :: 0 <= i < j < |rs| ==> rs[i].end <= rs[j].end)
    && (forall i, j :: 0 <= i < j < |rs| && rs[i].cmdHash == rs[j].cmdHash ==>
          rs[i].start == rs[j].start && rs[i].end == rs[j].end)
  }

  /** IsBuild as a value. */
  ghost function BuildTest(): seq<Record> -> bool { rs => IsBuild(rs) }

  /** The build that record r belongs to: the last one if r can go on it, else a new one. */
  ghost function Extend(bs: seq<seq<Record>>, r: Record): seq<seq<Record>> {
    if bs != [] && IsBuild(bs[|bs| - 1] + [r]) then bs[..|bs| - 1] + [bs[|bs| - 1] + [r]] else bs + [[r]]
  }

  /** The log read as consecutive builds, a new one only where the previous cannot go on. */
  ghost function Builds(rs: seq<Record>): seq<seq<Record>> {
    if rs == [] then [] else Extend(Builds(rs[..|rs| - 1]), rs[|rs| - 1])
  }

  lemma {:induction false} BuildsAreGreedy(rs: seq<Record>)
    ensures Flatten(Builds(rs)) == rs && AllFit(Builds(rs), BuildTest()) && Maximal(Builds(rs), BuildTest())
  {
    if rs != [] {
      BuildsAreGreedy(rs[..|rs| - 1]);
      ExtendKeeps(Builds(rs[..|rs| - 1]), rs[|rs| - 1]);
      assert rs == rs[..|rs| - 1] + [rs[|rs| - 1]];
    }
  }

  lemma ExtendKeeps(bs: seq<seq<Record>>, r: Record)
    requires AllFit(bs, BuildTest()) && Maximal(bs, BuildTest())
    ensures Flatten(Extend(bs, r)) == Flatten(bs) + [r]
    ensures AllFit(Extend(bs, r), BuildTest()) && Maximal(Extend(bs, r), BuildTest())
  {
    if bs != [] && IsBuild(bs[|bs| - 1] + [r]) {
      var n := |bs| - 1;
      assert bs == bs[..n] + [bs[n]];
      FlattenSnoc(bs[..n], bs[n]);
      FlattenSnoc(bs[..n], bs[n] + [r]);
      GrowLast(bs, r);
    } else {
      FlattenSnoc(bs, [r]);
      MaximalSnoc(bs, [r], BuildTest());
    }
  }

  lemma GrowLast(bs: seq<seq<Record>>, r: Record)
    requires bs != [] && AllFit(bs, BuildTest()) && Maximal(bs, BuildTest()) && IsBuild(bs[|bs| - 1] + [r])
    ensures var grown := bs[..|bs| - 1] + [bs[|bs| - 1] + [r]];
      AllFit(grown, BuildTest()) && Maximal(grown, BuildTest())
  {
    var grown := bs[..|bs| - 1] + [bs[|bs| - 1] + [r]];
    forall i | 0 <= i < |grown| - 1
      ensures !IsBuild(grown[i] + [grown[i + 1][0]])
    {
      assert !BuildTest()(bs[i] + [bs[i + 1][0]]);
    }
  }

  ghost function LastBuild(rs: seq<Record>): seq<Record> {
    var bs := Builds(rs);
    if bs == [] then [] else bs[|bs| - 1]
  }

  /** The reported records are a suffix of the log that one build can have written. */
  lemma LastBuildIsBuildSuffix(rs: seq<Record>)
    ensures var last := LastBuild(rs);
      && IsBuild(last)
      && |last| <= |rs| && rs[|rs| - |last|..] == last
      && (rs != [] ==> last != [])
  {
    BuildsAreGreedy(rs);
    var bs := Builds(rs);
    if bs != [] {
      var n := |bs| - 1;
      assert bs == bs[..n] + [bs[n]];
      FlattenSnoc(bs[..n], bs[n]);
    }
  }

  lemma IsBuildHereditary()
    ensures Hereditary(BuildTest())
  {
  }

  /** No reading of the log as consecutive builds has fewer builds; and one with as few reports
      at least the records reported here as its last build. */
  lemma FewestBuilds(rs: seq<Record>, other: seq<seq<Record>>)
    requires Flatten(other) == rs && AllFit(other, BuildTest())
    ensures |Builds(rs)| <= |other|
    ensures rs != [] && |Builds(rs)| == |other| ==> |LastBuild(rs)| <= |other[|other| - 1]|
  {
    BuildsAreGreedy(rs);
    IsBuildHereditary();
    NoMorePieces(Builds(rs), other, BuildTest());
  }

  /** Record p cannot be from the same build as all of the records after it. */
  ghost predicate Clashes(p: Record, build: seq<Record>) {
    exists r <- build :: r.end < p.end || (r.cmdHash == p.cmdHash && (r.start != p.start || r.end != p.end))
  }

  lemma BuildWithFirst(p: Record, build: seq<Record>)
    requires IsBuild(build)
    ensures IsBuild([p] + build) <==> !Clashes(p, build)
  {
    var longer := [p] + build;
    if IsBuild(longer) {
      forall r | r in build
        ensures !(r.end < p.end || (r.cmdHash == p.cmdHash && (r.start != p.start || r.end != p.end)))
      {
        var k :| 0 <= k < |build| && build[k] == r;
        assert longer[0] == p && longer[k + 1] == r;
      }
    }
  }

  lemma SuffixOfBuild(rs: seq<Record>, k: nat, m: nat)
    requires k <= m <= |rs| && IsBuild(rs[k..])
    ensures IsBuild(rs[m..])
  {
    assert rs[m..] == rs[k..][m - k..];
  }

  /** No longer suffix of the log can have been written by one build. */
  ghost predicate IsLongest(rs: seq<Record>, last: seq<Record>)
    requires |last| <= |rs|
  {
    forall k: nat :: k < |rs| - |last| ==> !IsBuild(rs[k..])
  }

  /** Exactly when the reported suffix is the longest that one build can have written: when the record before
      it clashes with some record in it, which need not be the one that made the code forget. */
  lemma LastBuildIsLongestIff(rs: seq<Record>)
    requires |LastBuild(rs)| < |rs|
    ensures IsLongest(rs, LastBuild(rs)) <==> Clashes(rs[|rs| - |LastBuild(rs)| - 1], LastBuild(rs))
  {
    LastBuildIsBuildSuffix(rs);
    var last := LastBuild(rs);
    var m := |rs| - |last|;
    assert rs[m - 1..] == [rs[m - 1]] + last;
    BuildWithFirst(rs[m - 1], last);
    forall k: nat | k < m && IsBuild(rs[k..])
      ensures IsBuild(rs[m - 1..])
    {
      SuffixOfBuild(rs, k, m - 1);
    }
  }

  /** When falling end times show where the last build begins, nothing that it can have written is missing. */
  lemma FallingEndIsLongest(rs: seq<Record>)
    requires 0 < |LastBuild(rs)| < |rs| && LastBuild(rs)[0].end < rs[|rs| - |LastBuild(rs)| - 1].end
    ensures IsLongest(rs, LastBuild(rs))
  {
    LastBuildIsLongestIff(rs);
    assert LastBuild(rs)[0] in LastBuild(rs);
  }

  /** The reported suffix is not always the longest that one build can have written: when the third
      of three records repeats the command of the first, the second is forgotten with the first. */
  lemma LastBuildNotLongest(a: Record, b: Record, c: Record)
    requires a.end <= b.end <= c.end && a.cmdHash == c.cmdHash != b.cmdHash && a.start != c.start
    ensures LastBuild([a, b, c]) == [c] && IsBuild([b, c]) && [a, b, c][1..] == [b, c]
  {
    CutOfThree(a, b, c);
    OnlyGreedyReading([a, b, c], [[a, b], [c]]);
  }

  /** The reading of the log as builds is the only one in which no build can take the record after it. */
  lemma OnlyGreedyReading(rs: seq<Record>, bs: seq<seq<Record>>)
    requires Flatten(bs) == rs != [] && AllFit(bs, BuildTest()) && Maximal(bs, BuildTest())
    ensures bs != [] && LastBuild(rs) == bs[|bs| - 1]
  {
    BuildsAreGreedy(rs);
    IsBuildHereditary();
    GreedyIsUnique(Builds(rs), bs, BuildTest());
  }

  lemma CutOfThree(a: Record, b: Record, c: Record)
    requires a.end <= b.end <= c.end && a.cmdHash == c.cmdHash != b.cmdHash && a.start != c.start
    ensures Flatten([[a, b], [c]]) == [a, b, c]
    ensures AllFit([[a, b], [c]], BuildTest()) && Maximal([[a, b], [c]], BuildTest())
  {
    FlattenSnoc([[a, b]], [c]);
    assert [[a, b]] + [[c]] == [[a, b], [c]] && [[a, b]][1..] == [];
    var joined := [a, b] + [c];
    assert joined[0].cmdHash == joined[2].cmdHash && joined[0].start != joined[2].start;
  }

  lemma BuildsStep(rs: seq<Record>, r: Record)
    ensures LastBuild(rs + [r]) ==
      if rs != [] && IsBuild(LastBuild(rs) + [r]) then LastBuild(rs) + [r] else [r]
  {
    assert (rs + [r])[..|rs|] == rs;
    assert Builds(rs + [r]) == Extend(Builds(rs), r);
  }

  // ----- how they are grouped

  /** Command hashes in order of first appearance. */
  function Hashes(rs: seq<Record>): seq<Hash>
  {
    if rs == [] then [] else
    var hs := Hashes(rs[..|rs| - 1]);
    var h := rs[|rs| - 1].cmdHash;
    if h in hs then hs else hs + [h]
  }

  ghost predicate Distinct(hashes: seq<Hash>) {
    forall i, j :: 0 <= i < j < |hashes| ==> hashes[i] != hashes[j]
  }

  lemma {:induction false} HashesDistinct(rs: seq<Record>)
    ensures Distinct(Hashes(rs))
  {
    if rs != [] { HashesDistinct(rs[..|rs| - 1]); }
  }

  function NamesOf(rs: seq<Record>, hash: Hash): seq<string> {
    if rs == [] then []
    else NamesOf(rs[..|rs| - 1], hash) + if rs[|rs| - 1].cmdHash == hash then [rs[|rs| - 1].name] else []
  }

  function FirstWith(rs: seq<Record>, hash: Hash): Record
    requires hash in Hashes(rs)
  {
    var earlier := rs[..|rs| - 1];
    if hash in Hashes(earlier) then FirstWith(earlier, hash) else rs[|rs| - 1]
  }

  /** Record k is the earliest with the hash. */
  ghost predicate IsFirst(rs: seq<Record>, hash: Hash, k: nat) {
    k < |rs| && rs[k].cmdHash == hash && forall j :: 0 <= j < k ==> rs[j].cmdHash != hash
  }

  /** The hashes are those of the records, and FirstWith is the earliest record with the hash. */
  lemma {:induction false} HashesOfRecords(rs: seq<Record>, hash: Hash)
    ensures hash in Hashes(rs) <==> exists k :: 0 <= k < |rs| && rs[k].cmdHash == hash
    ensures hash in Hashes(rs) ==> exists k: nat :: IsFirst(rs, hash, k) && FirstWith(rs, hash) == rs[k]
  {
    if rs != [] {
      var earlier := rs[..|rs| - 1];
      HashesOfRecords(earlier, hash);
      if hash in Hashes(earlier) {
        var k: nat :| IsFirst(earlier, hash, k) && FirstWith(earlier, hash) == earlier[k];
        assert IsFirst(rs, hash, k);
      } else {
        assert forall j :: 0 <= j < |rs| - 1 ==> rs[j] == earlier[j];
        assert rs[|rs| - 1].cmdHash == hash ==> IsFirst(rs, hash, |rs| - 1);
      }
    }
  }

  /** The hashes are listed in the order in which they first appear. */
  lemma {:induction false} HashesInOrder(rs: seq<Record>, i: nat, j: nat)
    requires i < j < |Hashes(rs)|
    ensures exists k ::
      && 0 <= k < |rs| && rs[k].cmdHash == Hashes(rs)[i]
      && forall l :: 0 <= l <= k ==> rs[l].cmdHash != Hashes(rs)[j]
  {
    var n := |rs| - 1;
    var earlier := rs[..n];
    HashesDistinct(rs);
    assert forall l :: 0 <= l < n ==> rs[l] == earlier[l];
    if j < |Hashes(earlier)| {
      HashesInOrder(earlier, i, j);
    } else {
      assert Hashes(rs)[i] in Hashes(earlier) && Hashes(rs)[j] !in Hashes(earlier);
      HashesOfRecords(earlier, Hashes(rs)[i]);
      HashesOfRecords(earlier, Hashes(rs)[j]);
    }
  }

  /** The names are those of the records with the hash, in order. */
  lemma {:induction false} NamesAreOutputs(rs: seq<Record>, hash: Hash) returns (at: seq<nat>)
    ensures |at| == |NamesOf(rs, hash)| && forall i, j :: 0 <= i < j < |at| ==> at[i] < at[j]
    ensures forall i :: 0 <= i < |at| ==>
      at[i] < |rs| && rs[at[i]].cmdHash == hash && NamesOf(rs, hash)[i] == rs[at[i]].name
    ensures forall k :: 0 <= k < |rs| && rs[k].cmdHash == hash ==> k in at
  {
    if rs == [] {
      at := [];
    } else {
      var n := |rs| - 1;
      at := NamesAreOutputs(rs[..n], hash);
      if rs[n].cmdHash == hash {
        at := at + [n];
      }
      assert forall k :: 0 <= k < n ==> rs[k] == rs[..n][k];
    }
  }

  /** The targets are the records grouped by command: one target a command, in order of first
      appearance, with the interval of the command's first record and all its outputs in order. */
  ghost predicate Grouped(rs: seq<Record>, targets: seq<Target>)
    reads targets
  {
    && |targets| == |Hashes(rs)|
    && (forall i, j :: 0 <= i < j < |targets| ==> targets[i] != targets[j])
    && (forall i {:trigger targets[i]} :: 0 <= i < |targets| ==>
          var h := Hashes(rs)[i];
          && h in Hashes(rs)
          && targets[i].start == FirstWith(rs, h).start
          && targets[i].end == FirstWith(rs, h).end
          && targets[i].names == NamesOf(rs, h))
  }

  /** A target has the times of the earliest record with its command, and lists that record's output first. */
  lemma TargetsAreRecords(rs: seq<Record>, targets: seq<Target>, i: nat)
    requires Grouped(rs, targets) && i < |targets|
    ensures exists k ::
      && 0 <= k < |rs|
      && targets[i].start == rs[k].start && targets[i].end == rs[k].end
      && targets[i].names != [] && targets[i].names[0] == rs[k].name
      && forall l :: 0 <= l < k ==> rs[l].cmdHash != rs[k].cmdHash
  {
    var h := Hashes(rs)[i];
    HashesOfRecords(rs, h);
    var k: nat :| IsFirst(rs, h, k) && FirstWith(rs, h) == rs[k];
    var at := NamesAreOutputs(rs, h);
    assert k in at;
    assert at[0] == k;
  }

  /** Every record is listed under a target, by its output. */
  lemma RecordsAreListed(rs: seq<Record>, targets: seq<Target>, k: nat)
    requires Grouped(rs, targets) && k < |rs|
    ensures exists i :: 0 <= i < |targets| && rs[k].name in targets[i].names
  {
    var h := rs[k].cmdHash;
    HashesOfRecords(rs, h);
    var i :| 0 <= i < |Hashes(rs)| && Hashes(rs)[i] == h;
    var at := NamesAreOutputs(rs, h);
    assert k in at;
    assert targets[i].names == NamesOf(rs, h);
  }

  /** What show_all selects: every record, or the last build. */
  ghost function Reported(rs: seq<Record>, showAll: bool): seq<Record> {
    if showAll then rs else LastBuild(rs)
  }

  /** The dictionary from hashes to targets, with its keys in insertion order, while it is filled. */
  ghost predicate Filled(rs: seq<Record>, dict: map<Hash, Target>, order: seq<Hash>)
    reads dict.Values
  {
    && order == Hashes(rs)
    && dict.Keys == (set h | h in order)
    && (forall h :: h in order ==>
          && dict[h].start == FirstWith(rs, h).start
          && dict[h].end == FirstWith(rs, h).end
          && dict[h].names == NamesOf(rs, h))
    && (forall g, h :: g in order && h in order && g != h ==> dict[g] != dict[h])
  }

  method ReadTargets(log: seq<Line>, showAll: bool) returns (targets: seq<Target>)
    ensures showAll ==> Grouped(Records(log), targets)
    ensures !showAll ==> Grouped(LastBuild(Records(log)), targets)
    ensures forall t <- targets :: fresh(t)
  {
    var dict: map<Hash, Target> := map[];
    var order: seq<Hash> := [];
    var lastEndSeen := 0;
    for i := 0 to |log|
      invariant ReadSoFar(log[..i], showAll, dict, order, lastEndSeen)
      invariant fresh(dict.Values)
    {
      assert log[..i + 1] == log[..i] + [log[i]];
      dict, order, lastEndSeen := ReadLine(dict, order, lastEndSeen, log[i], showAll, log[..i]);
    }
    assert log[..|log|] == log;
    targets := Values(dict, order);
    ValuesGrouped(Reported(Records(log), showAll), dict, order);
  }

  /** The state of the loop after some lines. */
  ghost predicate ReadSoFar(lines: seq<Line>, showAll: bool, dict: map<Hash, Target>, order: seq<Hash>,
                            lastEndSeen: int)
    reads dict.Values
  {
    var all := Records(lines);
    Filled(Reported(all, showAll), dict, order) && (all != [] ==> lastEndSeen == all[|all| - 1].end)
  }

  /** The body of the loop, which skips malformed lines. */
  method ReadLine(dict: map<Hash, Target>, order: seq<Hash>, lastEndSeen: int, line: Line, showAll: bool,
                  ghost lines: seq<Line>)
    returns (dict': map<Hash, Target>, order': seq<Hash>, lastEndSeen': int)
    requires ReadSoFar(lines, showAll, dict, order, lastEndSeen)
    modifies dict.Values
    ensures ReadSoFar(lines + [line], showAll, dict', order', lastEndSeen')
    ensures fresh(dict'.Values - dict.Values)
  {
    hide Filled, Reported;
    assert (lines + [line])[..|lines|] == lines;
    dict', order', lastEndSeen' := dict, order, lastEndSeen;
    if line.Malformed? {
      assert Records(lines + [line]) == Records(lines);
      return;
    }
    var r := line.record;
    dict', order' := ReadRecord(dict, order, lastEndSeen, r, showAll, Records(lines));
    lastEndSeen' := r.end;
  }

  /** The values of the dictionary in insertion order. */
  function Values(dict: map<Hash, Target>, order: seq<Hash>): (targets: seq<Target>)
    requires forall h <- order :: h in dict
    ensures |targets| == |order| && forall i :: 0 <= i < |order| ==> targets[i] == dict[order[i]]
    ensures forall t <- targets :: t in dict.Values
  {
    seq(|order|, i requires 0 <= i < |order| => dict[order[i]])
  }

  lemma ValuesGrouped(rs: seq<Record>, dict: map<Hash, Target>, order: seq<Hash>)
    requires Filled(rs, dict, order)
    ensures Grouped(rs, Values(dict, order))
  {
    HashesDistinct(rs);
  }

  /** One record: forget the earlier build if this record shows that a new one began. */
  method ReadRecord(dict: map<Hash, Target>, order: seq<Hash>, lastEndSeen: int, r: Record, showAll: bool,
                    ghost all: seq<Record>)
    returns (dict': map<Hash, Target>, order': seq<Hash>)
    requires Filled(Reported(all, showAll), dict, order)
    requires all != [] ==> lastEndSeen == all[|all| - 1].end
    modifies dict.Values
    ensures Filled(Reported(all + [r], showAll), dict', order')
    ensures fresh(dict'.Values - dict.Values)
  {
    dict', order' := dict, order;
    ghost var kept := Reported(all, showAll);
    ReportedStep(all, r, showAll);
    if !showAll && r.end < lastEndSeen {
      dict', order', kept := map[], [], [];
    }
    if r.cmdHash in dict' {
      var target := dict'[r.cmdHash];
      if !showAll && (target.start != r.start || target.end != r.end) {
        dict', order', kept := map[], [], [];
      }
    }
    dict', order' := AddRecord(dict', order', r, kept);
  }

  /** The dictionary has a target for r, but its name is not listed yet. */
  ghost predicate Entered(rs: seq<Record>, r: Record, dict: map<Hash, Target>, order: seq<Hash>)
    reads dict.Values
  {
    && order == Hashes(rs + [r])
    && dict.Keys == (set h | h in order)
    && (forall h :: h in order ==>
          && dict[h].start == FirstWith(rs + [r], h).start
          && dict[h].end == FirstWith(rs + [r], h).end
          && dict[h].names == NamesOf(rs, h))
    && (forall g, h :: g in order && h in order && g != h ==> dict[g] != dict[h])
  }

  /** Files one record under its hash, with a new target if the hash is not there yet. */
  method AddRecord(dict: map<Hash, Target>, order: seq<Hash>, r: Record, ghost kept: seq<Record>)
    returns (dict': map<Hash, Target>, order': seq<Hash>)
    requires Filled(kept, dict, order)
    modifies dict.Values
    ensures Filled(kept + [r], dict', order')
    ensures fresh(dict'.Values - dict.Values)
  {
    GroupStep(kept, r);
    dict', order' := EnterTarget(dict, order, r, kept);
    assert r.cmdHash in order';
    var target := dict'[r.cmdHash];
    assert target in dict'.Values;
    target.names := target.names + [r.name];
  }

  method EnterTarget(dict: map<Hash, Target>, order: seq<Hash>, r: Record, ghost kept: seq<Record>)
    returns (dict': map<Hash, Target>, order': seq<Hash>)
    requires Filled(kept, dict, order)
    ensures Entered(kept, r, dict', order')
    ensures fresh(dict'.Values - dict.Values)
  {
    GroupStep(kept, r);
    hide Hashes, FirstWith, NamesOf;
    dict', order' := dict, order;
    if r.cmdHash !in dict' {
      var target := new Target(r.start, r.end);
      dict', order' := dict'[r.cmdHash := target], order' + [r.cmdHash];
    }
  }

  /** How the reported records change when one more record is read. */
  lemma ReportedStep(rs: seq<Record>, r: Record, showAll: bool)
    ensures var kept := Reported(rs, showAll);
      Reported(rs + [r], showAll) ==
        if !showAll && ((rs != [] && r.end < rs[|rs| - 1].end)
          || (r.cmdHash in Hashes(kept) &&
              (FirstWith(kept, r.cmdHash).start != r.start || FirstWith(kept, r.cmdHash).end != r.end)))
        then [r] else kept + [r]
  {
    if !showAll {
      BuildsStep(rs, r);
      LastBuildIsBuildSuffix(rs);
      CanGoOn(LastBuild(rs), r);
    }
  }

  lemma CanGoOn(build: seq<Record>, r: Record)
    requires IsBuild(build)
    ensures IsBuild(build + [r]) <==>
      && (build != [] ==> build[|build| - 1].end <= r.end)
      && (r.cmdHash in Hashes(build) ==>
            FirstWith(build, r.cmdHash).start == r.start && FirstWith(build, r.cmdHash).end == r.end)
  {
    OneMore(build, r);
    if build != [] { EndsBefore(build, r); }
    if r.cmdHash in Hashes(build) {
      SameInterval(build, r);
    } else {
      HashesOfRecords(build, r.cmdHash);
    }
  }

  /** The last record of a build has the latest end. */
  lemma EndsBefore(build: seq<Record>, r: Record)
    requires IsBuild(build) && build != []
    ensures build[|build| - 1].end <= r.end <==> forall i :: 0 <= i < |build| ==> build[i].end <= r.end
  {
  }

  /** The first record with a command stands for all of them. */
  lemma SameInterval(build: seq<Record>, r: Record)
    requires IsBuild(build) && r.cmdHash in Hashes(build)
    ensures var first := FirstWith(build, r.cmdHash);
      first.start == r.start && first.end == r.end <==>
      forall i :: 0 <= i < |build| && build[i].cmdHash == r.cmdHash ==>
        build[i].start == r.start && build[i].end == r.end
  {
    HashesOfRecords(build, r.cmdHash);
    var k: nat :| IsFirst(build, r.cmdHash, k) && FirstWith(build, r.cmdHash) == build[k];
    forall i | 0 <= i < |build| && build[i].cmdHash == r.cmdHash
      ensures build[i].start == build[k].start && build[i].end == build[k].end
    {
      assert i == k || i < k || k < i;
    }
  }

  lemma OneMore(build: seq<Record>, r: Record)
    requires IsBuild(build)
    ensures IsBuild(build + [r]) <==> forall i :: 0 <= i < |build| ==>
      build[i].end <= r.end && (build[i].cmdHash == r.cmdHash ==> build[i].start == r.start && build[i].end == r.end)
  {
    var more := build + [r];
    if IsBuild(more) {
      forall i | 0 <= i < |build|
        ensures build[i].end <= r.end
        ensures build[i].cmdHash == r.cmdHash ==> build[i].start == r.start && build[i].end == r.end
      {
        assert more[i] == build[i] && more[|build|] == r;
      }
    }
  }

  lemma GroupStep(rs: seq<Record>, r: Record)
    ensures Hashes(rs + [r]) == if r.cmdHash in Hashes(rs) then Hashes(rs) else Hashes(rs) + [r.cmdHash]
    ensures forall h :: NamesOf(rs + [r], h) == NamesOf(rs, h) + if h == r.cmdHash then [r.name] else []
    ensures forall h <- Hashes(rs) :: FirstWith(rs + [r], h) == FirstWith(rs, h)
    ensures r.cmdHash !in Hashes(rs) ==> FirstWith(rs + [r], r.cmdHash) == r && NamesOf(rs, r.cmdHash) == []
  {
    assert (rs + [r])[..|rs|] == rs;
    if r.cmdHash !in Hashes(rs) {
      NamesOfNone(rs, r.cmdHash);
    }
  }

  lemma NamesStep(rs: seq<Record>, r: Record, hash: Hash)
    ensures NamesOf(rs + [r], hash) == NamesOf(rs, hash) + if hash == r.cmdHash then [r.name] else []
  {
    assert (rs + [r])[..|rs|] == rs;
  }

  lemma NamesOfNone(rs: seq<Record>, hash: Hash)
    requires hash !in Hashes(rs)
    ensures NamesOf(rs, hash) == []
  {
    if rs != [] { NamesOfNone(rs[..|rs| - 1], hash); }
  }

  function AllNames(rs: seq<Record>): seq<string> {
    if rs == [] then [] else AllNames(rs[..|rs| - 1]) + [rs[|rs| - 1].name]
  }

  function GroupedNames(rs: seq<Record>, hashes: seq<Hash>): seq<string> {
    if hashes == [] then []
    else GroupedNames(rs, hashes[..|hashes| - 1]) + NamesOf(rs, hashes[|hashes| - 1])
  }

  /** Grouping loses and repeats no output: the names listed over all targets are exactly the
      names of the reported records, each as often as it was written. */
  lemma {:induction false} GroupingKeepsNames(rs: seq<Record>)
    ensures multiset(GroupedNames(rs, Hashes(rs))) == multiset(AllNames(rs))
  {
    if rs != [] {
      var init, r := rs[..|rs| - 1], rs[|rs| - 1];
      assert rs == init + [r];
      GroupingKeepsNames(init);
      OneMoreName(init, r);
      var names := AllNames(init);
      assert AllNames(rs) == names + [r.name];
      assert multiset(names + [r.name]) == multiset(names) + multiset{r.name};
    }
  }

  lemma OneMoreName(rs: seq<Record>, r: Record)
    ensures multiset(GroupedNames(rs + [r], Hashes(rs + [r]))) ==
      multiset(GroupedNames(rs, Hashes(rs))) + multiset{r.name}
  {
    var hs, h := Hashes(rs), r.cmdHash;
    HashesDistinct(rs);
    GroupedNamesGrow(rs, r, hs);
    assert Hashes(rs + [r]) == (if h in hs then hs else hs + [h]) by {
      assert (rs + [r])[..|rs|] == rs;
    }
    if h !in hs {
      NamesOfNone(rs, h);
      NamesStep(rs, r, h);
      GroupedNamesSnoc(rs + [r], hs, h);
    }
  }

  lemma GroupedNamesSnoc(rs: seq<Record>, hashes: seq<Hash>, hash: Hash)
    ensures GroupedNames(rs, hashes + [hash]) == GroupedNames(rs, hashes) + NamesOf(rs, hash)
  {
    assert (hashes + [hash])[..|hashes|] == hashes;
  }

  lemma {:induction false} GroupedNamesGrow(rs: seq<Record>, r: Record, hashes: seq<Hash>)
    requires Distinct(hashes)
    ensures multiset(GroupedNames(rs + [r], hashes)) ==
      multiset(GroupedNames(rs, hashes)) + if r.cmdHash in hashes then multiset{r.name} else multiset{}
  {
    if hashes != [] {
      var init, h := hashes[..|hashes| - 1], hashes[|hashes| - 1];
      assert h !in init && (r.cmdHash in hashes <==> r.cmdHash in init || r.cmdHash == h);
      GroupedNamesGrow(rs, r, init);
      NamesStep(rs, r, h);
      JoinedNames(GroupedNames(rs + [r], init), NamesOf(rs + [r], h));
      JoinedNames(GroupedNames(rs, init), NamesOf(rs, h));
    }
  }

  lemma JoinedNames(a: seq<string>, b: seq<string>)
    ensures multiset(a + b) == multiset(a) + multiset(b)
  {
  }

  function ListedNames(targets: seq<Target>): seq<string>
    reads targets
  {
    if targets == [] then [] else ListedNames(targets[..|targets| - 1]) + targets[|targets| - 1].names
  }

  /** The names listed over all targets are exactly the names of the reported records. */
  lemma TargetsListEveryName(rs: seq<Record>, targets: seq<Target>)
    requires Grouped(rs, targets)
    ensures multiset(ListedNames(targets)) == multiset(AllNames(rs))
  {
    ListedIsGrouped(rs, targets, |targets|);
    assert targets[..|targets|] == targets && Hashes(rs)[..|targets|] == Hashes(rs);
    GroupingKeepsNames(rs);
  }

  lemma {:induction false} ListedIsGrouped(rs: seq<Record>, targets: seq<Target>, k: nat)
    requires Grouped(rs, targets) && k <= |targets|
    ensures ListedNames(targets[..k]) == GroupedNames(rs, Hashes(rs)[..k])
  {
    if k > 0 {
      ListedIsGrouped(rs, targets, k - 1);
      assert targets[..k][..k - 1] == targets[..k - 1] && Hashes(rs)[..k][..k - 1] == Hashes(rs)[..k - 1];
      assert targets[k - 1].names == NamesOf(rs, Hashes(rs)[k - 1]);
    }
  }
}
