/** Fleet: the two operations over many boxes — collecting the boxes of
    every configured directory (`collect_boxes`), and updating every
    outdated base box and pruning the old versions (`upgrade_vagrant_boxes`). */
module Fleet {
  import opened Boxes
  import opened StatusParser
  import opened Processes
  import opened OutdatedReport

  /** What `Vagrant::get_boxes` yields for a directory, given how its status
      query ended: an error when the query failed, the listed boxes when it
      succeeded, and an abort when the listing has a line it cannot read. */
  function DirectoryBoxes(dir: Path, reply: Reply): (r: Result<seq<VagrantBox>>)
    ensures r.Err? <==> !reply.ok
    ensures r.Err? ==> r.error == Failed(StatusQuery(dir))
  {
    if !reply.ok then Err(Failed(StatusQuery(dir)))
    else
      match ParseStatusOutput(dir, reply.stdout)
      case Parsed(boxes) => Ok(boxes)
      case Malformed(line) => Panic(line)
  }

  /** `Vagrant::get_boxes`: run `vagrant status` in the directory and parse
      what it prints. */
  method GetBoxes(sh: Shell, dir: Path) returns (r: Result<seq<VagrantBox>>)
    modifies sh
    ensures sh.trace == old(sh.trace) + [StatusQuery(dir)]
    ensures r == DirectoryBoxes(dir, sh.reply(|old(sh.trace)|))
  {
    var output := sh.Execute(StatusQuery(dir));
    if !output.ok {
      return Err(Failed(StatusQuery(dir)));
    }
    match ParseStatusOutput(dir, output.stdout)
    case Parsed(boxes) =>
      r := Ok(boxes);
    case Malformed(line) =>
      r := Panic(line);
  }

  /** Every box listed for a directory carries that directory. */
  lemma ListedInDirectory(dir: Path, reply: Reply)
    ensures var r := DirectoryBoxes(dir, reply);
            r.Ok? ==> forall k :: 0 <= k < |r.value| ==> r.value[k].path == dir
  {
    StatusParseShape(dir, reply.stdout);
  }

  /** The boxes found so far, in front of the outcome of the rest. */
  function Prepend(found: seq<VagrantBox>, rest: Result<seq<VagrantBox>>): Result<seq<VagrantBox>>
  {
    if rest.Ok? then Ok(found + rest.value) else rest
  }

  /** One outcome followed by another: an abort in the first ends it. */
  function Then(first: Result<seq<VagrantBox>>, second: Result<seq<VagrantBox>>): Result<seq<VagrantBox>>
  {
    if first.Ok? then Prepend(first.value, second) else first
  }

  /** The outcome of each directory's status query, the n-th reply answering
      the first directory's. */
  function Outcomes(dirs: seq<Path>, reply: nat -> Reply, n: nat): (r: seq<Result<seq<VagrantBox>>>)
    ensures |r| == |dirs|
  {
    seq(|dirs|, k requires 0 <= k < |dirs| => DirectoryBoxes(dirs[k], reply(n + k)))
  }

  /** The outcomes put together: the boxes of each successful query, in
      order; nothing for a failed one; an abort at the first unreadable
      listing. Never an error. */
  function Combine(outs: seq<Result<seq<VagrantBox>>>): (r: Result<seq<VagrantBox>>)
    ensures !r.Err?
    decreases |outs|
  {
    if outs == [] then Ok([])
    else
      var rest := Combine(outs[1..]);
      match outs[0]
      case Ok(boxes) => Prepend(boxes, rest)
      case Err(_) => rest
      case Panic(line) => Panic(line)
  }

  /** How many outcomes are reached: all of them, or up to and including the
      first abort. */
  function Reached(outs: seq<Result<seq<VagrantBox>>>): (k: nat)
    ensures k <= |outs|
    decreases |outs|
  {
    if outs == [] then 0
    else if outs[0].Panic? then 1
    else 1 + Reached(outs[1..])
  }

  /** The boxes of `dirs`, whose status queries are answered from the n-th
      reply on. */
  function Gather(dirs: seq<Path>, reply: nat -> Reply, n: nat): (r: Result<seq<VagrantBox>>)
    ensures !r.Err?
  {
    Combine(Outcomes(dirs, reply, n))
  }

  /** Every box collected comes from one of the configured directories. */
  lemma GatheredFromDirectories(dirs: seq<Path>, reply: nat -> Reply, n: nat)
    ensures Gather(dirs, reply, n).Ok? ==> forall b :: b in Gather(dirs, reply, n).value ==> b.path in dirs
  {
    var outs := Outcomes(dirs, reply, n);
    forall j | 0 <= j < |outs| && outs[j].Ok?
      ensures forall b :: b in outs[j].value ==> b.path in dirs
    {
      assert outs[j] == DirectoryBoxes(dirs[j], reply(n + j));
      ListedInDirectory(dirs[j], reply(n + j));
    }
    CombinePaths(outs, dirs);
  }

  /** How many status queries collecting `dirs` issues. */
  function Queried(dirs: seq<Path>, reply: nat -> Reply, n: nat): (k: nat)
    ensures k <= |dirs|
  {
    Reached(Outcomes(dirs, reply, n))
  }

  function StatusQueries(dirs: seq<Path>): (r: seq<Invocation>)
    ensures |r| == |dirs|
  {
    seq(|dirs|, k requires 0 <= k < |dirs| => StatusQuery(dirs[k]))
  }

  /** What collecting the boxes does, with replies from the n-th on. */
  function Collection(cfg: Config, installed: bool, reply: nat -> Reply, n: nat): Run<seq<VagrantBox>>
  {
    if cfg.directories.None? then Run(Err(NoDirectories), [])
    else if !installed then Run(Err(NotInstalled), [])
    else
      var dirs := cfg.directories.value;
      Run(Gather(dirs, reply, n), StatusQueries(dirs[..Queried(dirs, reply, n)]))
  }

  lemma {:induction false} CombinePaths(outs: seq<Result<seq<VagrantBox>>>, dirs: seq<Path>)
    requires forall j :: 0 <= j < |outs| && outs[j].Ok? ==> forall b :: b in outs[j].value ==> b.path in dirs
    ensures Combine(outs).Ok? ==> forall b :: b in Combine(outs).value ==> b.path in dirs
    decreases |outs|
  {
    if outs != [] {
      CombinePaths(outs[1..], dirs);
    }
  }

  lemma {:induction false} PrependPrepend(a: seq<VagrantBox>, b: seq<VagrantBox>, r: Result<seq<VagrantBox>>)
    ensures Prepend(a, Prepend(b, r)) == Prepend(a + b, r)
  {
    if r.Ok? {
      assert a + (b + r.value) == a + b + r.value;
    }
  }

  /** `collect_boxes`: the boxes of every configured directory. A directory
      whose status query fails is left out and the loop goes on. */
  method CollectBoxes(sh: Shell, cfg: Config) returns (r: Result<seq<VagrantBox>>)
    modifies sh
    ensures var run := Collection(cfg, sh.installed, sh.reply, |old(sh.trace)|);
            sh.trace == old(sh.trace) + run.invocations && r == run.result
  {
    if cfg.directories.None? {
      return Err(NoDirectories);
    }
    if !sh.installed {
      return Err(NotInstalled);
    }
    var dirs := cfg.directories.value;
    ghost var n := |sh.trace|;
    var result: seq<VagrantBox> := [];
    var i := 0;
    while i < |dirs|
      invariant 0 <= i <= |dirs|
      invariant |sh.trace| == n + i
      invariant sh.trace == old(sh.trace) + StatusQueries(dirs[..i])
      invariant Gather(dirs[..i], sh.reply, n) == Ok(result)
    {
      ghost var answer := sh.reply(|sh.trace|);
      var boxes := GetBoxes(sh, dirs[i]);
      QueriesStep(dirs, i);
      GatherStep(dirs, i, sh.reply, n, result, answer, boxes);
      match boxes {
        case Ok(found) =>
          result := result + found;
        case Err(_) =>
        case Panic(line) =>
          GatherAborts(dirs, i, sh.reply, n, answer);
          return Panic(line);
      }
      i := i + 1;
    }
    assert dirs[..i] == dirs;
    NoAbortReachesAll(Outcomes(dirs, sh.reply, n));
    r := Ok(result);
  }

  /** One more directory: its outcome is added to what the ones before it
      gave. */
  lemma {:induction false} GatherStep(dirs: seq<Path>, i: nat, reply: nat -> Reply, n: nat,
                                      result: seq<VagrantBox>, x: Reply, o: Result<seq<VagrantBox>>)
    requires i < |dirs|
    requires Gather(dirs[..i], reply, n) == Ok(result)
    requires x == reply(n + i) && o == DirectoryBoxes(dirs[i], x)
    ensures o.Ok? ==> Gather(dirs[..i + 1], reply, n) == Ok(result + o.value)
    ensures o.Err? ==> Gather(dirs[..i + 1], reply, n) == Ok(result)
  {
    OutcomesSnoc(dirs, i, reply, n);
    CombineSnoc(Outcomes(dirs[..i], reply, n), o);
  }

  /** The outcomes of one more directory end with that directory's. */
  lemma {:induction false} OutcomesSnoc(dirs: seq<Path>, i: nat, reply: nat -> Reply, n: nat)
    requires i < |dirs|
    ensures Outcomes(dirs[..i + 1], reply, n) == Outcomes(dirs[..i], reply, n) + [DirectoryBoxes(dirs[i], reply(n + i))]
  {
    var outs, before := Outcomes(dirs[..i + 1], reply, n), Outcomes(dirs[..i], reply, n);
    forall k | 0 <= k < i
      ensures outs[k] == before[k]
    {
      assert dirs[..i + 1][k] == dirs[..i][k];
    }
    assert outs[i] == DirectoryBoxes(dirs[i], reply(n + i));
  }

  /** One more outcome after outcomes that gave boxes. */
  lemma {:induction false} CombineSnoc(outs: seq<Result<seq<VagrantBox>>>, o: Result<seq<VagrantBox>>)
    requires Combine(outs).Ok?
    ensures o.Ok? ==> Combine(outs + [o]) == Ok(Combine(outs).value + o.value)
    ensures o.Err? ==> Combine(outs + [o]) == Combine(outs)
    decreases |outs|
  {
    if outs == [] {
      assert outs + [o] == [o] && [o][1..] == [];
      assert Combine([o][1..]) == Ok([]);
      if o.Ok? {
        assert o.value + [] == o.value && [] + o.value == o.value;
      }
    } else {
      assert (outs + [o])[0] == outs[0] && (outs + [o])[1..] == outs[1..] + [o];
      CombineSnoc(outs[1..], o);
      if o.Ok? && outs[0].Ok? {
        assert outs[0].value + (Combine(outs[1..]).value + o.value) == outs[0].value + Combine(outs[1..]).value + o.value;
      }
    }
  }

  /** An unreadable listing after directories that all gave their boxes
      is the outcome of the whole collection, and the last query made. */
  lemma {:induction false} GatherAborts(dirs: seq<Path>, i: nat, reply: nat -> Reply, n: nat, x: Reply)
    requires i < |dirs|
    requires Gather(dirs[..i], reply, n).Ok?
    requires x == reply(n + i) && DirectoryBoxes(dirs[i], x).Panic?
    ensures Gather(dirs, reply, n) == DirectoryBoxes(dirs[i], x)
    ensures Queried(dirs, reply, n) == i + 1
  {
    var outs := Outcomes(dirs, reply, n);
    OutcomesPrefix(dirs, i, reply, n);
    assert outs[i] == DirectoryBoxes(dirs[i], reply(n + i));
    AbortEndsCombine(outs, i);
  }

  /** The outcomes of a prefix of the directories are a prefix of the
      outcomes. */
  lemma {:induction false} OutcomesPrefix(dirs: seq<Path>, i: nat, reply: nat -> Reply, n: nat)
    requires i <= |dirs|
    ensures Outcomes(dirs, reply, n)[..i] == Outcomes(dirs[..i], reply, n)
  {
  }

  lemma {:induction false} AbortEndsCombine(outs: seq<Result<seq<VagrantBox>>>, i: nat)
    requires i < |outs| && Combine(outs[..i]).Ok? && outs[i].Panic?
    ensures Combine(outs) == outs[i] && Reached(outs) == i + 1
    decreases i
  {
    if i > 0 {
      assert outs[..i][1..] == outs[1..][..i - 1];
      AbortEndsCombine(outs[1..], i - 1);
    }
  }

  lemma {:induction false} QueriesStep(dirs: seq<Path>, i: nat)
    requires i < |dirs|
    ensures StatusQueries(dirs[..i + 1]) == StatusQueries(dirs[..i]) + [StatusQuery(dirs[i])]
  {
    assert dirs[..i + 1][..i] == dirs[..i];
  }

  /** Outcomes of directories one after another. */
  lemma {:induction false} OutcomesAppend(d1: seq<Path>, d2: seq<Path>, reply: nat -> Reply, n: nat)
    ensures Outcomes(d1 + d2, reply, n) == Outcomes(d1, reply, n) + Outcomes(d2, reply, n + |d1|)
  {
    var all, o1, o2 := Outcomes(d1 + d2, reply, n), Outcomes(d1, reply, n), Outcomes(d2, reply, n + |d1|);
    forall k | 0 <= k < |all|
      ensures all[k] == (o1 + o2)[k]
    {
      if k < |d1| {
        assert (d1 + d2)[k] == d1[k];
      } else {
        assert (d1 + d2)[k] == d2[k - |d1|];
      }
    }
  }

  lemma {:induction false} CombineAppend(o1: seq<Result<seq<VagrantBox>>>, o2: seq<Result<seq<VagrantBox>>>)
    ensures Combine(o1 + o2) == Then(Combine(o1), Combine(o2))
    decreases |o1|
  {
    if o1 == [] {
      assert o1 + o2 == o2;
      if Combine(o2).Ok? {
        assert [] + Combine(o2).value == Combine(o2).value;
      }
    } else {
      assert (o1 + o2)[0] == o1[0] && (o1 + o2)[1..] == o1[1..] + o2;
      CombineAppend(o1[1..], o2);
      var rest := Combine(o1[1..]);
      if o1[0].Ok? && rest.Ok? {
        PrependPrepend(o1[0].value, rest.value, Combine(o2));
      }
    }
  }

  /** Collecting directories one after another: the boxes of the first
      ones, then those of the rest (whose queries get the later replies). */
  lemma {:induction false} GatherAppend(d1: seq<Path>, d2: seq<Path>, reply: nat -> Reply, n: nat)
    ensures Gather(d1 + d2, reply, n) == Then(Gather(d1, reply, n), Gather(d2, reply, n + |d1|))
  {
    OutcomesAppend(d1, d2, reply, n);
    CombineAppend(Outcomes(d1, reply, n), Outcomes(d2, reply, n + |d1|));
  }

  /** The outcome of a single directory followed by the rest. */
  lemma {:induction false} GatherCons(dir: Path, after: seq<Path>, reply: nat -> Reply, n: nat)
    ensures var here := DirectoryBoxes(dir, reply(n));
            var rest := Gather(after, reply, n + 1);
            Gather([dir] + after, reply, n)
              == (if here.Ok? then Prepend(here.value, rest) else if here.Err? then rest else here)
  {
    OutcomesAppend([dir], after, reply, n);
    var outs := Outcomes([dir] + after, reply, n);
    assert outs[0] == DirectoryBoxes(dir, reply(n));
    assert outs[1..] == Outcomes(after, reply, n + 1);
  }

  /** A directory whose status query fails hides nothing else: the result
      is what the directories before and after it give. */
  lemma {:induction false} FailedDirectoryIsOmitted(before: seq<Path>, dir: Path, after: seq<Path>, reply: nat -> Reply, n: nat)
    requires !reply(n + |before|).ok
    ensures Gather(before + [dir] + after, reply, n)
            == Then(Gather(before, reply, n), Gather(after, reply, n + |before| + 1))
  {
    GatherAppend(before, [dir] + after, reply, n);
    assert before + [dir] + after == before + ([dir] + after);
    GatherCons(dir, after, reply, n + |before|);
  }

  /** A directory whose status query succeeds contributes its boxes, in
      place. */
  lemma {:induction false} AnsweredDirectoryIsIncluded(before: seq<Path>, dir: Path, after: seq<Path>, reply: nat -> Reply, n: nat,
                                    boxes: seq<VagrantBox>)
    requires DirectoryBoxes(dir, reply(n + |before|)) == Ok(boxes)
    ensures Gather(before + [dir] + after, reply, n)
            == Then(Gather(before, reply, n), Prepend(boxes, Gather(after, reply, n + |before| + 1)))
  {
    GatherAppend(before, [dir] + after, reply, n);
    assert before + [dir] + after == before + ([dir] + after);
    GatherCons(dir, after, reply, n + |before|);
  }

  /** Collection fails outright only for want of directories or of the
      tool, and then queries nothing; otherwise it queries every directory
      (unless a listing is unreadable) and never reports a per-directory
      failure. */
  lemma {:induction false} CollectionFailsOnlyUpFront(cfg: Config, installed: bool, reply: nat -> Reply, n: nat)
    ensures var run := Collection(cfg, installed, reply, n);
            && (run.result.Err? <==> cfg.directories.None? || !installed)
            && (run.result.Err? ==> run.invocations == [])
            && (run.result.Ok? ==> run.invocations == StatusQueries(cfg.directories.value))
  {
    if cfg.directories.Some? && installed {
      var dirs := cfg.directories.value;
      NoAbortReachesAll(Outcomes(dirs, reply, n));
      assert dirs[..|dirs|] == dirs;
    }
  }

  lemma {:induction false} NoAbortReachesAll(outs: seq<Result<seq<VagrantBox>>>)
    ensures Combine(outs).Ok? ==> Reached(outs) == |outs|
    decreases |outs|
  {
    if outs != [] {
      NoAbortReachesAll(outs[1..]);
    }
  }

  /** `vagrant box update` for each entry, in order. */
  function Updates(entries: seq<Entry>): (r: seq<Invocation>)
    ensures |r| == |entries|
  {
    seq(|entries|, k requires 0 <= k < |entries| => BoxUpdate(entries[k].box, entries[k].provider))
  }

  /** What reconciling the fleet does, with replies from the n-th on. */
  function Reconciliation(installed: bool, reply: nat -> Reply, n: nat): Run<()>
  {
    if !installed then Run(Err(NotInstalled), [])
    else if !reply(n).ok then Run(Err(Failed(OutdatedQuery)), [OutdatedQuery])
    else
      var entries := OutdatedEntries(reply(n).stdout);
      if entries == [] then Run(Ok(()), [OutdatedQuery])
      else Run(Checked(reply(n + 1 + |entries|), BoxPrune), [OutdatedQuery] + Updates(entries) + [BoxPrune])
  }

  /** `upgrade_vagrant_boxes`: update every outdated box for its provider,
      ignoring failures, then prune once if anything was outdated. */
  method UpgradeVagrantBoxes(sh: Shell) returns (r: Result<()>)
    modifies sh
    ensures var run := Reconciliation(sh.installed, sh.reply, |old(sh.trace)|);
            sh.trace == old(sh.trace) + run.invocations && r == run.result
  {
    if !sh.installed {
      return Err(NotInstalled);
    }
    var outdated := sh.Execute(OutdatedQuery);
    if !outdated.ok {
      return Err(Failed(OutdatedQuery));
    }
    var entries := OutdatedEntries(outdated.stdout);
    var found := false;
    var i := 0;
    while i < |entries|
      invariant 0 <= i <= |entries|
      invariant found <==> i > 0
      invariant sh.trace == old(sh.trace) + [OutdatedQuery] + Updates(entries[..i])
    {
      found := true;
      var _ := sh.Execute(BoxUpdate(entries[i].box, entries[i].provider));
      assert Updates(entries[..i + 1]) == Updates(entries[..i]) + [BoxUpdate(entries[i].box, entries[i].provider)];
      i := i + 1;
    }
    assert entries[..i] == entries;
    if !found {
      r := Ok(());
    } else {
      var pruned := sh.Execute(BoxPrune);
      r := Checked(pruned, BoxPrune);
    }
  }

  lemma {:induction false} CountUpdates(entries: seq<Entry>)
    ensures Count(Updates(entries), IsUpdate) == |entries|
    ensures Count(Updates(entries), IsPrune) == 0
    decreases |entries|
  {
    if entries != [] {
      CountUpdates(entries[1..]);
      assert Updates(entries)[1..] == Updates(entries[1..]);
    }
  }

  /** One update per outdated entry, and a prune exactly once, after all of
      them, if and only if at least one entry was found. */
  lemma {:induction false} PruneOnceIffOutdated(installed: bool, reply: nat -> Reply, n: nat)
    ensures var invs := Reconciliation(installed, reply, n).invocations;
            var listed := if installed && reply(n).ok then OutdatedEntries(reply(n).stdout) else [];
            && Count(invs, IsUpdate) == |listed|
            && Count(invs, IsPrune) == (if listed != [] then 1 else 0)
            && (listed != [] ==> invs[|invs| - 1] == BoxPrune)
  {
    var invs := Reconciliation(installed, reply, n).invocations;
    assert !IsUpdate(OutdatedQuery) by { assert OutdatedQuery.args[1][0] != "update"[0]; }
    assert Count([OutdatedQuery], IsUpdate) == 0 && Count([OutdatedQuery], IsPrune) == 0;
    if installed && reply(n).ok {
      var entries := OutdatedEntries(reply(n).stdout);
      CountUpdates(entries);
      if entries != [] {
        var front := [OutdatedQuery] + Updates(entries);
        assert invs == front + [BoxPrune];
        assert invs[|invs| - 1] == BoxPrune;
        assert !IsUpdate(BoxPrune) by { assert BoxPrune.args[1][0] != "update"[0]; }
        assert Count([BoxPrune], IsUpdate) == 0 && Count([BoxPrune], IsPrune) == 1;
        CountAppend([OutdatedQuery], Updates(entries), IsUpdate);
        CountAppend([OutdatedQuery], Updates(entries), IsPrune);
        CountAppend([OutdatedQuery] + Updates(entries), [BoxPrune], IsUpdate);
        CountAppend([OutdatedQuery] + Updates(entries), [BoxPrune], IsPrune);
      } else {
        assert invs == [OutdatedQuery];
      }
    }
  }

  /** The outcome of the updates is ignored: with the same answers to the
      outdated query and to the prune, the reconciliation is the same. */
  lemma {:induction false} UpdateFailuresIgnored(installed: bool, reply: nat -> Reply, other: nat -> Reply, n: nat)
    requires other(n) == reply(n)
    requires reply(n).ok ==> var m := n + 1 + |OutdatedEntries(reply(n).stdout)|; other(m) == reply(m)
    ensures Reconciliation(installed, other, n) == Reconciliation(installed, reply, n)
  {
  }

  /** Given a report, the invocations are the outdated query, one update per
      outdated box it lists in report order, and one prune if it lists any. */
  lemma {:induction false} ReportDrivesReconciliation(lines: seq<ReportLine>, reply: nat -> Reply, n: nat)
    requires forall k :: 0 <= k < |lines| ==> WellFormed(OutdatedPattern, lines[k])
    requires reply(n) == Reply(true, Report(OutdatedPattern, lines))
    ensures Reconciliation(true, reply, n).invocations
            == [OutdatedQuery] + Updates(Listed(lines)) + (if Listed(lines) == [] then [] else [BoxPrune])
  {
    var listed := Listed(lines);
    assert OutdatedEntries(reply(n).stdout) == listed by {
      ReportRoundTrip(lines);
    }
    if listed == [] {
      assert [OutdatedQuery] + Updates(listed) + [] == [OutdatedQuery];
    }
  }
}
