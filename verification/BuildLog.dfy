/**
 Reading the ninja log: which records belong to the last build, and how they are grouped into
 build steps.
 */
module BuildLog {

  datatype Record = Record(start: real, end: real, name: string, hash: string)

  /** A line that does not have five fields is skipped. */
  datatype Line = Malformed | Entry(record: Record)

  datatype Target = Target(hash: string, start: real, end: real, names: seq<string>)

  function Records(lines: seq<Line>): seq<Record> {
    if lines == [] then []
    else
      var l := lines[|lines| - 1];
      Records(lines[..|lines| - 1]) + if l.Entry? then [l.record] else []
  }

  /** The records of a log read in two parts are those of its parts, in order. */
  lemma {:induction false} RecordsOfParts(a: seq<Line>, b: seq<Line>)
    ensures Records(a + b) == Records(a) + Records(b)
    ensures b == [Malformed] ==> Records(b) == []
    ensures forall r :: b == [Entry(r)] ==> Records(b) == [r]
  {
    if b == [] {
      assert a + b == a;
    } else {
      var n := |b| - 1;
      assert (a + b)[..|a| + n] == a + b[..n];
      RecordsOfParts(a, b[..n]);
    }
  }

  // ----- the dictionary of targets, in insertion order -----

  function Find(ts: seq<Target>, hash: string): (i: nat)
    ensures i <= |ts|
    ensures i < |ts| ==> ts[i].hash == hash
    ensures forall j :: 0 <= j < i ==> ts[j].hash != hash
  {
    if ts == [] || ts[0].hash == hash then 0 else 1 + Find(ts[1..], hash)
  }

  function AddRecord(ts: seq<Target>, r: Record): seq<Target> {
    var i := Find(ts, r.hash);
    if i < |ts| then ts[i := ts[i].(names := ts[i].names + [r.name])]
    else ts + [Target(r.hash, r.start, r.end, [r.name])]
  }

  function Group(rs: seq<Record>): seq<Target> {
    if rs == [] then [] else AddRecord(Group(rs[..|rs| - 1]), rs[|rs| - 1])
  }

  // ----- one build -----

  predicate SameStep(a: Record, b: Record) {
    a.hash == b.hash ==> a.start == b.start && a.end == b.end
  }

  /** A record that cannot belong to the build recorded so far. */
  ghost predicate Conflicts(build: seq<Record>, r: Record) {
    build != [] && (r.end < build[|build| - 1].end || exists q :: q in build && !SameStep(q, r))
  }

  /** End times never go back and a step is never recorded with two different times. */
  ghost predicate IsOneBuild(rs: seq<Record>) {
    forall i, j :: 0 <= i < j < |rs| ==> rs[i].end <= rs[j].end && SameStep(rs[i], rs[j])
  }

  /** Exactly: a record conflicts with a build iff the build is no longer one build with it. */
  lemma ConflictIff(build: seq<Record>, r: Record)
    requires IsOneBuild(build)
    ensures Conflicts(build, r) <==> !IsOneBuild(build + [r])
  {
    hide SameStep;
    if !Conflicts(build, r) {
      BuildGrows(build, r);
    } else {
      var more, n := build + [r], |build|;
      assert more[n] == r && more[n - 1] == build[n - 1];
      if r.end >= build[n - 1].end {
        var q :| q in build && !SameStep(q, r);
        var i :| 0 <= i < n && build[i] == q;
        assert more[i] == q;
      }
    }
  }

  /** The records after the last point at which the log can no longer be one build. */
  ghost function LastBuild(rs: seq<Record>): seq<Record> {
    if rs == [] then []
    else
      var build, r := LastBuild(rs[..|rs| - 1]), rs[|rs| - 1];
      if Conflicts(build, r) then [r] else build + [r]
  }

  lemma LastBuildNext(rs: seq<Record>)
    ensures rs != [] ==>
      var build, r := LastBuild(rs[..|rs| - 1]), rs[|rs| - 1];
      LastBuild(rs) == if Conflicts(build, r) then [r] else build + [r]
    ensures rs == [] ==> LastBuild(rs) == []
  {
  }

  lemma {:induction false} LastBuildIsSuffix(rs: seq<Record>)
    ensures rs != [] ==> LastBuild(rs) != []
    ensures |LastBuild(rs)| <= |rs| && LastBuild(rs) == rs[|rs| - |LastBuild(rs)|..]
  {
    hide LastBuild, Conflicts;
    LastBuildNext(rs);
    if rs == [] {
    } else {
      LastBuildIsSuffix(rs[..|rs| - 1]);
      SuffixGrows(rs, LastBuild(rs[..|rs| - 1]));
    }
  }

  lemma SuffixGrows(rs: seq<Record>, build: seq<Record>)
    requires rs != [] && |build| < |rs| && build == rs[..|rs| - 1][|rs| - 1 - |build|..]
    ensures build + [rs[|rs| - 1]] == rs[|rs| - 1 - |build|..] && [rs[|rs| - 1]] == rs[|rs| - 1..]
  {
  }

  lemma {:induction false} LastBuildIsOneBuild(rs: seq<Record>)
    ensures IsOneBuild(LastBuild(rs))
  {
    hide LastBuild, IsOneBuild, Conflicts;
    LastBuildNext(rs);
    ShortBuild(rs);
    if rs == [] {
    } else {
      var n := |rs| - 1;
      LastBuildIsOneBuild(rs[..n]);
      if !Conflicts(LastBuild(rs[..n]), rs[n]) { BuildGrows(LastBuild(rs[..n]), rs[n]); }
    }
  }

  lemma ShortBuild(rs: seq<Record>)
    ensures IsOneBuild([]) && (rs != [] ==> IsOneBuild([rs[|rs| - 1]]))
  {
  }

  lemma BuildGrows(build: seq<Record>, r: Record)
    requires IsOneBuild(build) && !Conflicts(build, r)
    ensures IsOneBuild(build + [r])
  {
    hide SameStep;
    forall i | 0 <= i < |build|
      ensures build[i].end <= r.end && SameStep(build[i], r)
    {
      assert build[i] in build;
      assert i < |build| - 1 ==> build[i].end <= build[|build| - 1].end;
    }
  }

  /** It starts at the beginning of the log or at a record that conflicts with the build before it. */
  lemma {:induction false} LastBuildStartsAtConflict(rs: seq<Record>)
    requires LastBuild(rs) != rs
    ensures var k := |rs| - |LastBuild(rs)|;
      0 <= k < |rs| && Conflicts(LastBuild(rs[..k]), rs[k]) && !IsOneBuild(LastBuild(rs[..k]) + [rs[k]])
  {
    hide LastBuild, Conflicts, IsOneBuild;
    LastBuildNext(rs);
    LastBuildIsSuffix(rs);
    var n := |rs| - 1;
    var build := LastBuild(rs[..n]);
    if !Conflicts(build, rs[n]) {
      assert rs[..n] + [rs[n]] == rs;
      LastBuildStartsAtConflict(rs[..n]);
      var k := n - |build|;
      assert rs[..n][..k] == rs[..k];
    } else {
      LastBuildIsOneBuild(rs[..n]);
      ConflictIff(build, rs[n]);
    }
  }

  // ----- what the grouping holds -----

  function NamesOf(rs: seq<Record>, hash: string): seq<string> {
    if rs == [] then []
    else
      var r := rs[|rs| - 1];
      NamesOf(rs[..|rs| - 1], hash) + if r.hash == hash then [r.name] else []
  }

  ghost predicate Recorded(rs: seq<Record>, hash: string) {
    exists r :: r in rs && r.hash == hash
  }

  /** The first record of a step has these times. */
  ghost predicate RecordedAt(rs: seq<Record>, hash: string, start: real, end: real) {
    exists k ::
      0 <= k < |rs| && rs[k].hash == hash && rs[k].start == start && rs[k].end == end && !Recorded(rs[..k], hash)
  }

  /** The target of a step lists the step's outputs in log order and has the times of its first record. */
  ghost predicate Describes(ts: seq<Target>, rs: seq<Record>, hash: string) {
    var i := Find(ts, hash);
    && (i < |ts| <==> Recorded(rs, hash))
    && (i < |ts| ==> ts[i].names == NamesOf(rs, hash) && RecordedAt(rs, hash, ts[i].start, ts[i].end))
  }

  lemma {:induction false} NoNames(rs: seq<Record>, hash: string)
    requires forall r :: r in rs ==> r.hash != hash
    ensures NamesOf(rs, hash) == []
  {
    if rs == [] {
    } else {
      NoNames(rs[..|rs| - 1], hash);
    }
  }

  lemma {:induction false} FindAfterUpdate(ts: seq<Target>, i: nat, t: Target, hash: string)
    requires i < |ts| && t.hash == ts[i].hash
    ensures Find(ts[i := t], hash) == Find(ts, hash)
  {
    if i > 0 {
      assert ts[i := t][1..] == ts[1..][i - 1 := t];
      if ts[0].hash != hash { FindAfterUpdate(ts[1..], i - 1, t, hash); }
    } else {
      assert ts[i := t][1..] == ts[1..];
    }
  }

  lemma {:induction false} FindAfterAppend(ts: seq<Target>, t: Target, hash: string)
    ensures Find(ts + [t], hash) ==
      if Find(ts, hash) < |ts| then Find(ts, hash) else if t.hash == hash then |ts| else |ts| + 1
  {
    if ts == [] {
    } else {
      assert (ts + [t])[1..] == ts[1..] + [t];
      if ts[0].hash != hash { FindAfterAppend(ts[1..], t, hash); }
    }
  }

  lemma OneMore(rs: seq<Record>, r: Record, hash: string, start: real, end: real)
    ensures Recorded(rs + [r], hash) <==> Recorded(rs, hash) || r.hash == hash
    ensures RecordedAt(rs, hash, start, end) ==> RecordedAt(rs + [r], hash, start, end)
    ensures !Recorded(rs, r.hash) ==> RecordedAt(rs + [r], r.hash, r.start, r.end)
    ensures NamesOf(rs + [r], hash) == NamesOf(rs, hash) + if r.hash == hash then [r.name] else []
  {
    assert (rs + [r])[..|rs|] == rs && (rs + [r])[|rs|] == r;
    if RecordedAt(rs, hash, start, end) {
      var k :|
        0 <= k < |rs| && rs[k].hash == hash && rs[k].start == start && rs[k].end == end && !Recorded(rs[..k], hash);
      assert (rs + [r])[..k] == rs[..k];
    }
  }

  lemma DescribesNext(ts: seq<Target>, rs: seq<Record>, r: Record, hash: string)
    requires Describes(ts, rs, hash) && Describes(ts, rs, r.hash)
    ensures Describes(AddRecord(ts, r), rs + [r], hash)
  {
    hide Find, NamesOf, Recorded, RecordedAt;
    var i, k := Find(ts, r.hash), Find(ts, hash);
    if k < |ts| { OneMore(rs, r, hash, ts[k].start, ts[k].end); } else { OneMore(rs, r, hash, r.start, r.end); }
    if i < |ts| {
      FindAfterUpdate(ts, i, ts[i].(names := ts[i].names + [r.name]), hash);
    } else {
      FindAfterAppend(ts, Target(r.hash, r.start, r.end, [r.name]), hash);
      NamesOfNone(rs, hash);
    }
  }

  lemma NamesOfNone(rs: seq<Record>, hash: string)
    ensures !Recorded(rs, hash) ==> NamesOf(rs, hash) == []
  {
    if !Recorded(rs, hash) { NoNames(rs, hash); }
  }

  lemma {:induction false} GroupDescribes(rs: seq<Record>, hash: string)
    ensures Describes(Group(rs), rs, hash)
  {
    hide AddRecord, Find, NamesOf;
    if rs == [] {
    } else {
      var n := |rs| - 1;
      assert rs == rs[..n] + [rs[n]];
      GroupDescribes(rs[..n], hash);
      GroupDescribes(rs[..n], rs[n].hash);
      DescribesNext(Group(rs[..n]), rs[..n], rs[n], hash);
    }
  }

  ghost function OutputCount(ts: seq<Target>): nat {
    if ts == [] then 0 else OutputCount(ts[..|ts| - 1]) + |ts[|ts| - 1].names|
  }

  lemma {:induction false} CountAfterUpdate(ts: seq<Target>, i: nat, name: string)
    requires i < |ts|
    ensures OutputCount(ts[i := ts[i].(names := ts[i].names + [name])]) == OutputCount(ts) + 1
  {
    var n := |ts| - 1;
    var us := ts[i := ts[i].(names := ts[i].names + [name])];
    if i == n {
      assert us[..n] == ts[..n];
    } else {
      assert us[..n] == ts[..n][i := ts[i].(names := ts[i].names + [name])];
      CountAfterUpdate(ts[..n], i, name);
    }
  }

  /** Every record is listed exactly once. */
  lemma {:induction false} GroupLosesNothing(rs: seq<Record>)
    ensures OutputCount(Group(rs)) == |rs|
  {
    if rs == [] {
    } else {
      var n := |rs| - 1;
      var ts := Group(rs[..n]);
      GroupLosesNothing(rs[..n]);
      var i := Find(ts, rs[n].hash);
      if i < |ts| {
        CountAfterUpdate(ts, i, rs[n].name);
      } else {
        assert AddRecord(ts, rs[n])[..|ts|] == ts;
      }
    }
  }

  /** The dictionary sees a clash iff some record of the build has the same hash and other times. */
  lemma ClashIffConflict(build: seq<Record>, r: Record)
    requires IsOneBuild(build)
    ensures var ts := Group(build);
      var i := Find(ts, r.hash);
      (i < |ts| && (ts[i].start != r.start || ts[i].end != r.end)) <==> exists q :: q in build && !SameStep(q, r)
  {
    hide Group, NamesOf, Find;
    GroupDescribes(build, r.hash);
    var ts := Group(build);
    var i := Find(ts, r.hash);
    if i < |ts| {
      var k :|
        0 <= k < |build| && build[k].hash == r.hash && build[k].start == ts[i].start && build[k].end == ts[i].end;
      var f := build[k];
      forall q | q in build && q.hash == r.hash
        ensures q.start == f.start && q.end == f.end
      {
        StepIsSame(build, f, q);
      }
    }
  }

  lemma StepIsSame(build: seq<Record>, f: Record, q: Record)
    requires IsOneBuild(build) && f in build && q in build && q.hash == f.hash
    ensures q.start == f.start && q.end == f.end
  {
    var a :| 0 <= a < |build| && build[a] == f;
    var b :| 0 <= b < |build| && build[b] == q;
    assert a < b ==> SameStep(build[a], build[b]);
    assert b < a ==> SameStep(build[b], build[a]);
  }

  ghost predicate EndsAt(build: seq<Record>, time: real) {
    build != [] ==> build[|build| - 1].end == time
  }

  /** One well-formed line: forget the previous build on a conflict, then add the record. */
  method TakeRecord(targets: seq<Target>, lastEndSeen: real, r: Record, showAll: bool, ghost build: seq<Record>)
    returns (updated: seq<Target>)
    requires targets == Group(build) && (showAll || IsOneBuild(build))
    requires EndsAt(build, lastEndSeen)
    ensures updated == AddRecord(if !showAll && Conflicts(build, r) then [] else targets, r)
  {
    hide IsOneBuild, Group;
    if !showAll { ClashIffConflict(build, r); }
    updated := targets;
    if !showAll && r.end < lastEndSeen {
      updated := [];
    }
    if build == [] { EmptyGroup(); }
    var i := Find(updated, r.hash);
    if !showAll && i < |updated| && (updated[i].start != r.start || updated[i].end != r.end) {
      updated := [];
      i := 0;
    }
    ghost var kept := updated;
    assert kept == if !showAll && Conflicts(build, r) then [] else targets;
    if i == |updated| {
      updated := updated + [Target(r.hash, r.start, r.end, [])];
    }
    updated := updated[i := updated[i].(names := updated[i].names + [r.name])];
    assert [] + [r.name] == [r.name];
    assert updated == AddRecord(kept, r);
  }

  lemma EmptyGroup()
    ensures Group([]) == []
  {
  }

  method ReadTargets(lines: seq<Line>, showAll: bool) returns (targets: seq<Target>)
    ensures targets == Group(Kept(lines, showAll))
  {
    hide IsOneBuild, Conflicts, AddRecord, LastBuild, Records, Group;
    targets := [];
    var lastEndSeen := 0.0;
    ghost var build: seq<Record> := [];
    NothingRead();
    for k := 0 to |lines|
      invariant build == Kept(lines[..k], showAll)
      invariant targets == Group(build)
      invariant EndsAt(build, lastEndSeen)
    {
      assert lines[..k + 1][..k] == lines[..k];
      KeptNext(lines[..k + 1], showAll);
      if lines[k].Malformed? {
        continue;
      }
      var r := lines[k].record;
      LastBuildIsOneBuild(Records(lines[..k]));
      GroupNext(build, r);
      targets := TakeRecord(targets, lastEndSeen, r, showAll, build);
      build := if !showAll && Conflicts(build, r) then [r] else build + [r];
      lastEndSeen := r.end;
    }
    assert lines[..|lines|] == lines;
  }

  /** The records that a log is reported by. */
  ghost function Kept(lines: seq<Line>, showAll: bool): seq<Record> {
    if showAll then Records(lines) else LastBuild(Records(lines))
  }

  lemma NothingRead()
    ensures Kept([], true) == Kept([], false) == [] && Group([]) == []
  {
  }

  lemma KeptNext(lines: seq<Line>, showAll: bool)
    requires lines != []
    ensures var before, l := Kept(lines[..|lines| - 1], showAll), lines[|lines| - 1];
      Kept(lines, showAll) ==
      if l.Malformed? then before
      else if !showAll && Conflicts(before, l.record) then [l.record]
      else before + [l.record]
  {
    hide Conflicts, LastBuild;
    var rs, l := Records(lines[..|lines| - 1]), lines[|lines| - 1];
    if l.Malformed? {
      assert Records(lines) == rs;
    } else {
      assert Records(lines) == rs + [l.record];
      assert (rs + [l.record])[..|rs|] == rs;
      LastBuildNext(rs + [l.record]);
    }
  }

  lemma GroupNext(build: seq<Record>, r: Record)
    ensures Group(build + [r]) == AddRecord(Group(build), r)
    ensures Group([r]) == AddRecord([], r)
  {
    hide AddRecord;
    assert (build + [r])[..|build|] == build && [r][..0] == [];
  }
}
