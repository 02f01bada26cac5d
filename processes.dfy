/** Processes: the `vagrant` executable as this core sees it. Each call of
    the tool is an Invocation (its arguments and working directory); the
    shell records every invocation in order and answers it with a Reply that
    the model takes as given: whether the tool exited successfully, and what
    it printed. */
module Processes {
  import opened Wrappers
  import opened Boxes

  /** One run of `vagrant`: its argument list and the directory it runs in
      (None: the caller's own). */
  datatype Invocation = Invocation(args: seq<string>, cwd: Option<Path>)

  /** How a run ended: `ok` is a zero exit status (and, where output is
      captured, valid UTF-8 output); `stdout` is what it printed. */
  datatype Reply = Reply(ok: bool, stdout: string)

  datatype Error =
    | NoDirectories              // no `vagrant.directories` configured
    | NotInstalled               // `vagrant` is not on the PATH
    | Failed(invocation: Invocation)  // the tool exited unsuccessfully
    | Skipped(box: VagrantBox)   // a powered-off box that may not be powered on

  /** The result of an entry point. Panic is the program aborting on a
      status line it cannot read; it is not an error any caller handles. */
  datatype Result<T> = Ok(value: T) | Err(error: Error) | Panic(line: string)

  /** What an entry point does: its result and the invocations it issues,
      in order. */
  datatype Run<T> = Run(result: Result<T>, invocations: seq<Invocation>)

  /** The settings the Vagrant step reads. Unset options take the
      program's defaults (power on: yes; always suspend: no). */
  datatype Config = Config(
    directories: Option<seq<Path>>,
    powerOn: Option<bool>,
    alwaysSuspend: Option<bool>,
    yes: bool)

  /** `vagrant_power_on().unwrap_or(true)`: power boxes on unless told not to. */
  function PowerOnPolicy(cfg: Config): (r: bool)
    ensures r <==> cfg.powerOn != Some(false)
  {
    if cfg.powerOn.Some? then cfg.powerOn.value else true
  }

  /** `vagrant_always_suspend().unwrap_or(false)`: suspend only when told to. */
  function AlwaysSuspendPolicy(cfg: Config): (r: bool)
    ensures r <==> cfg.alwaysSuspend == Some(true)
  {
    if cfg.alwaysSuspend.Some? then cfg.alwaysSuspend.value else false
  }

  /** `vagrant status`, in a box directory. */
  function StatusQuery(dir: Path): Invocation
  {
    Invocation(["status"], Some(dir))
  }

  /** `vagrant <subcommand> <name>`, in the box's directory. */
  function PowerTransition(subcommand: string, b: VagrantBox): Invocation
  {
    Invocation([subcommand, b.name], Some(b.path))
  }

  /** `vagrant ssh -c <command>`, in the box's directory. */
  function SshCommand(b: VagrantBox, command: string): Invocation
  {
    Invocation(["ssh", "-c", command], Some(b.path))
  }

  const OutdatedQuery := Invocation(["box", "outdated", "--global"], None)

  /** `vagrant box update --box <box> --provider <provider>`. */
  function BoxUpdate(box: string, provider: string): Invocation
  {
    Invocation(["box", "update", "--box", box, "--provider", provider], None)
  }

  const BoxPrune := Invocation(["box", "prune"], None)

  predicate IsPowerUp(inv: Invocation)
  {
    |inv.args| == 2 && inv.args[0] in {"up", "resume"}
  }

  predicate IsRestore(inv: Invocation)
  {
    |inv.args| == 2 && inv.args[0] in {"halt", "suspend"}
  }

  predicate IsSsh(inv: Invocation)
  {
    |inv.args| >= 1 && inv.args[0] == "ssh"
  }

  predicate IsUpdate(inv: Invocation)
  {
    |inv.args| >= 2 && inv.args[..2] == ["box", "update"]
  }

  predicate IsPrune(inv: Invocation)
  {
    inv == BoxPrune
  }

  /** How many of the invocations are of the kind `p`. */
  function Count(invs: seq<Invocation>, p: Invocation -> bool): (n: nat)
    ensures n <= |invs|
  {
    if invs == [] then 0 else (if p(invs[0]) then 1 else 0) + Count(invs[1..], p)
  }

  lemma {:induction false} CountAppend(a: seq<Invocation>, b: seq<Invocation>, p: Invocation -> bool)
    ensures Count(a + b, p) == Count(a, p) + Count(b, p)
    decreases |a|
  {
    if a != [] {
      assert (a + b)[1..] == a[1..] + b;
      CountAppend(a[1..], b, p);
    } else {
      assert a + b == b;
    }
  }

  /** The failure an unsuccessful run propagates (`status_checked()?`). */
  function Checked(reply: Reply, inv: Invocation): (r: Result<()>)
    ensures r.Ok? <==> reply.ok
    ensures r.Err? <==> !reply.ok
    ensures r.Err? ==> r.error == Failed(inv)
  {
    if reply.ok then Ok(()) else Err(Failed(inv))
  }

  /** The machine the step runs on: whether `vagrant` is on the PATH, how
      the k-th invocation of it ends (`reply(k)`), and every invocation made
      so far. */
  class Shell {
    const installed: bool
    const reply: nat -> Reply
    var trace: seq<Invocation>

    constructor (installed: bool, reply: nat -> Reply)
      ensures this.installed == installed && this.reply == reply
      ensures trace == []
    {
      this.installed := installed;
      this.reply := reply;
      trace := [];
    }

    /** Run `vagrant` once: the invocation is recorded and answered. */
    method Execute(inv: Invocation) returns (r: Reply)
      modifies this
      ensures trace == old(trace) + [inv]
      ensures r == reply(|old(trace)|)
    {
      r := reply(|trace|);
      trace := trace + [inv];
    }
  }
}
