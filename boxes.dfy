/** Boxes: the value types of the Vagrant step — the power state a box is
    discovered in, the box record itself, its display name, and the
    subcommands that power a box up and put it back. */
module Boxes {
  import opened Wrappers

  /** The power state `vagrant status` reports for a box. A closed set: any
      other keyword is not a status. */
  datatype BoxStatus = PowerOff | Running | Saved | Aborted

  /** Only a running box counts as powered on. */
  predicate PoweredOn(s: BoxStatus)
  {
    s == Running
  }

  /** The keyword each variant is spelled as (every variant name in lower case). */
  function Keyword(s: BoxStatus): (r: string)
    ensures r != [] && forall i :: 0 <= i < |r| ==> 'a' <= r[i] <= 'z'
  {
    match s
    case PowerOff => "poweroff"
    case Running => "running"
    case Saved => "saved"
    case Aborted => "aborted"
  }

  /** Parsing a status keyword: an exact, case-sensitive match against the
      four keywords, and nothing else. */
  function StatusFromStr(word: string): (r: Option<BoxStatus>)
    ensures forall s :: r == Some(s) <==> word == Keyword(s)
    ensures r.None? <==> word !in {"poweroff", "running", "saved", "aborted"}
  {
    if word == "poweroff" then Some(PowerOff)
    else if word == "running" then Some(Running)
    else if word == "saved" then Some(Saved)
    else if word == "aborted" then Some(Aborted)
    else None
  }

  /** A directory, as the sequence of its normal path components. */
  datatype Path = Path(segments: seq<string>)

  predicate HasFileName(p: Path)
  {
    |p.segments| > 0
  }

  /** The final component of a path. */
  function FileName(p: Path): (r: string)
    requires HasFileName(p)
    ensures p.segments == p.segments[..|p.segments| - 1] + [r]
  {
    p.segments[|p.segments| - 1]
  }

  /** One box found in one directory. Every box parsed from the same
      directory carries that same directory. */
  datatype VagrantBox = VagrantBox(path: Path, name: string, initialStatus: BoxStatus)

  /** The name Vagrant gives the only machine of a Vagrantfile that does not
      name its machines. */
  const DefaultName := "default"

  /** The display name can be formed: a box called "default" needs a
      directory with a final component. */
  predicate Nameable(b: VagrantBox)
  {
    b.name == DefaultName ==> HasFileName(b.path)
  }

  /** The display name: the box's own name, unless that is the uninformative
      "default", in which case the last component of its directory. */
  function SmartName(b: VagrantBox): (r: string)
    requires Nameable(b)
    ensures b.name != DefaultName ==> r == b.name
    ensures b.name == DefaultName ==> r == b.path.segments[|b.path.segments| - 1]
  {
    if b.name == DefaultName then FileName(b.path) else b.name
  }

  /** What each power subcommand does to a box, when it succeeds: the
      documented effect of `vagrant up`, `resume`, `halt` and `suspend`.
      This is a reference for the subcommand choices below, not part of the
      program. */
  function After(subcommand: string, s: BoxStatus): BoxStatus
  {
    if subcommand == "up" || subcommand == "resume" then Running
    else if subcommand == "halt" then PowerOff
    else if subcommand == "suspend" then Saved
    else s
  }

  /** The subcommand that brings a box that is not running up: a cold boot
      for a box that is off or aborted, a resume for a saved one. */
  function PowerUpSubcommand(s: BoxStatus): (r: string)
    requires !PoweredOn(s)
    ensures After(r, s) == Running
    ensures r == "resume" <==> s == Saved
    ensures r == "up" || r == "resume"
  {
    match s
    case PowerOff => "up"
    case Aborted => "up"
    case Saved => "resume"
  }

  /** The subcommand that puts a temporarily powered-up box back: halt a box
      that was off or aborted, suspend a saved one; with the always-suspend
      policy, suspend every box. */
  function RestoreSubcommand(s: BoxStatus, alwaysSuspend: bool): (r: string)
    requires !PoweredOn(s)
    ensures !PoweredOn(After(r, Running))
    ensures alwaysSuspend ==> After(r, Running) == Saved
    ensures !alwaysSuspend ==> After(r, Running) == (if s == Aborted then PowerOff else s)
    ensures r == "halt" || r == "suspend"
  {
    if alwaysSuspend then "suspend"
    else
      match s
      case PowerOff => "halt"
      case Aborted => "halt"
      case Saved => "suspend"
  }

  /** Powering a box up and then restoring it returns it to a state that is
      not running; without the always-suspend policy, to the state it was
      found in (an aborted box comes back cleanly powered off). */
  lemma {:induction false} PowerUpThenRestore(s: BoxStatus, alwaysSuspend: bool)
    requires !PoweredOn(s)
    ensures var up := After(PowerUpSubcommand(s), s);
            && PoweredOn(up)
            && !PoweredOn(After(RestoreSubcommand(s, alwaysSuspend), up))
            && (!alwaysSuspend && s != Aborted ==> After(RestoreSubcommand(s, alwaysSuspend), up) == s)
  {
  }
}
