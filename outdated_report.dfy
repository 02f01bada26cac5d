/** OutdatedReport: the entries of `vagrant box outdated --global`, found the
    way the pattern `\* '(.*?)' for '(.*?)' is outdated` finds them — every
    non-overlapping match from left to right, each group as short as
    possible, and `.` never crossing a line break. Positions are indices
    into the whole report. */
module OutdatedReport {
  import opened Wrappers

  /** One outdated box and the provider it was added for. */
  datatype Entry = Entry(box: string, provider: string)

  /** A pattern of the form `marker(.*?)sep(.*?)tail`, by its three literal
      parts. */
  datatype Pattern = Pattern(marker: string, sep: string, tail: string)

  /** `\* '(.*?)' for '(.*?)' is outdated`. */
  const OutdatedPattern := Pattern("* '", "' for '", "' is outdated")

  /** What the proofs below need of a pattern's literals: none holds a line
      break, and the separator and the tail both open with a quote. */
  predicate Usable(pat: Pattern)
  {
    && '\n' !in pat.marker && '\n' !in pat.sep && '\n' !in pat.tail
    && pat.sep != [] && pat.sep[0] == '\'' && pat.tail != [] && pat.tail[0] == '\''
  }

  lemma OutdatedPatternUsable()
    ensures Usable(OutdatedPattern)
  {
  }

  /** `lit` is written in `s` from position i on. */
  predicate LitAt(s: string, i: nat, lit: string)
  {
    i + |lit| <= |s| && forall j :: 0 <= j < |lit| ==> s[i + j] == lit[j]
  }

  /** No line break in `s` between positions `from` (included) and `to`. */
  predicate NoBreak(s: string, from: nat, to: nat)
  {
    from <= to <= |s| && forall j :: from <= j < to ==> s[j] != '\n'
  }

  /** The text an entry is matched in. */
  function Written(pat: Pattern, e: Entry): string
  {
    pat.marker + e.box + pat.sep + e.provider + pat.tail
  }

  /** `(.*?)` followed by `lit`, from position `from`: the first position
      from which `lit` is written, unless a line break comes first. */
  function LazyUntil(s: string, from: nat, lit: string): (r: Option<nat>)
    ensures r.Some? ==> from <= r.value && r.value + |lit| <= |s|
    decreases |s| - from
  {
    if LitAt(s, from, lit) then Some(from)
    else if from < |s| && s[from] != '\n' then LazyUntil(s, from + 1, lit)
    else None
  }

  /** Where the lazy group ends, `lit` is written, on the same line. */
  lemma {:induction false} LazyUntilFound(s: string, from: nat, lit: string)
    ensures var r := LazyUntil(s, from, lit);
            r.Some? ==> NoBreak(s, from, r.value) && LitAt(s, r.value, lit)
    decreases |s| - from
  {
    if !LitAt(s, from, lit) && from < |s| && s[from] != '\n' {
      LazyUntilFound(s, from + 1, lit);
    }
  }

  /** The lazy group ends where `lit` is first written, and finds nothing
      only when `lit` is not written before the line ends. */
  lemma {:induction false} LazyUntilFirst(s: string, from: nat, lit: string)
    ensures var r := LazyUntil(s, from, lit);
            && (r.Some? ==> forall q :: from <= q < r.value ==> !LitAt(s, q, lit))
            && (r.None? ==> forall q :: from <= q && NoBreak(s, from, q) ==> !LitAt(s, q, lit))
    decreases |s| - from
  {
    if !LitAt(s, from, lit) && from < |s| && s[from] != '\n' {
      LazyUntilFirst(s, from + 1, lit);
    }
  }

  /** The first group may end at `b`: the separator is written there and the
      second group can be closed after it. */
  predicate GroupsFit(pat: Pattern, s: string, b: nat)
  {
    LitAt(s, b, pat.sep) && LazyUntil(s, b + |pat.sep|, pat.tail).Some?
  }

  /** After the marker, from position `from`: `(.*?)sep(.*?)tail`. The first
      group is the shortest for which the rest can match, the second the
      shortest after it. Gives the positions where the two groups end. */
  function MatchBody(pat: Pattern, s: string, from: nat): (r: Option<(nat, nat)>)
    ensures r.Some? ==> from <= r.value.0 && r.value.0 + |pat.sep| <= r.value.1 && r.value.1 + |pat.tail| <= |s|
    decreases |s| - from
  {
    if GroupsFit(pat, s, from) then Some((from, LazyUntil(s, from + |pat.sep|, pat.tail).value))
    else if from < |s| && s[from] != '\n' then MatchBody(pat, s, from + 1)
    else None
  }

  /** The first group stays on one line and is followed by the separator;
      the second is the lazy group after the separator. */
  lemma {:induction false} MatchBodyFound(pat: Pattern, s: string, from: nat)
    ensures var r := MatchBody(pat, s, from);
            r.Some? ==> && NoBreak(s, from, r.value.0) && LitAt(s, r.value.0, pat.sep)
                        && LazyUntil(s, r.value.0 + |pat.sep|, pat.tail) == Some(r.value.1)
    decreases |s| - from
  {
    if !GroupsFit(pat, s, from) && from < |s| && s[from] != '\n' {
      MatchBodyFound(pat, s, from + 1);
    }
  }

  /** The first group ends at the first place where the rest of the pattern
      fits, and nothing is found only when it fits nowhere on the line. */
  lemma {:induction false} MatchBodyFirst(pat: Pattern, s: string, from: nat)
    ensures var r := MatchBody(pat, s, from);
            && (r.Some? ==> forall b :: from <= b < r.value.0 ==> !GroupsFit(pat, s, b))
            && (r.None? ==> forall b :: from <= b && NoBreak(s, from, b) ==> !GroupsFit(pat, s, b))
    decreases |s| - from
  {
    if !GroupsFit(pat, s, from) && from < |s| && s[from] != '\n' {
      MatchBodyFirst(pat, s, from + 1);
    }
  }

  /** The match that starts at position i, if any: the entry it captures
      and the position just after the matched text. */
  function MatchAt(pat: Pattern, s: string, i: nat): (r: Option<(Entry, nat)>)
    requires Usable(pat)
    ensures r.Some? ==> i < r.value.1 <= |s|
  {
    if !LitAt(s, i, pat.marker) then None
    else
      var groups := MatchBody(pat, s, i + |pat.marker|);
      if groups.None? then None
      else
        var b, q := groups.value.0, groups.value.1;
        Some((Entry(s[i + |pat.marker|..b], s[b + |pat.sep|..q]), q + |pat.tail|))
  }

  /** A match lies on one line and ends with the tail. */
  lemma {:induction false} MatchAtShape(pat: Pattern, s: string, i: nat)
    requires Usable(pat)
    ensures MatchAt(pat, s, i).Some? ==>
              var next := MatchAt(pat, s, i).value.1;
              i + |pat.tail| <= next && NoBreak(s, i, next) && LitAt(s, next - |pat.tail|, pat.tail)
  {
    var m := i + |pat.marker|;
    if !LitAt(s, i, pat.marker) || MatchBody(pat, s, m).None? {
      assert MatchAt(pat, s, i) == None;
    } else {
      var b, q := MatchBody(pat, s, m).value.0, MatchBody(pat, s, m).value.1;
      assert MatchAt(pat, s, i).value.1 == q + |pat.tail|;
      GroupsOnLine(pat, s, m, b, q);
      Reach(pat, s, i, b, q);
    }
  }

  /** Where the body's two groups end: each on the line, followed by the
      separator and the tail. */
  lemma {:induction false} GroupsOnLine(pat: Pattern, s: string, m: nat, b: nat, q: nat)
    requires MatchBody(pat, s, m) == Some((b, q))
    ensures NoBreak(s, m, b) && LitAt(s, b, pat.sep)
    ensures b + |pat.sep| <= q && NoBreak(s, b + |pat.sep|, q) && LitAt(s, q, pat.tail)
  {
    MatchBodyFound(pat, s, m);
    LazyUntilFound(s, b + |pat.sep|, pat.tail);
  }

  /** The parts of a match lie on one line. */
  lemma {:induction false} Reach(pat: Pattern, s: string, i: nat, b: nat, q: nat)
    requires Usable(pat)
    requires LitAt(s, i, pat.marker) && i + |pat.marker| <= b && NoBreak(s, i + |pat.marker|, b)
    requires LitAt(s, b, pat.sep) && b + |pat.sep| <= q && NoBreak(s, b + |pat.sep|, q)
    requires LitAt(s, q, pat.tail)
    ensures NoBreak(s, i, q + |pat.tail|)
  {
    forall j | i <= j < q + |pat.tail|
      ensures s[j] != '\n'
    {
      if j < i + |pat.marker| {
        assert s[i + (j - i)] == pat.marker[j - i];
      } else if b <= j < b + |pat.sep| {
        assert s[b + (j - b)] == pat.sep[j - b];
      } else if q <= j {
        assert s[q + (j - q)] == pat.tail[j - q];
      }
    }
  }

  /** Every match, left to right, without overlaps, from position i on. */
  function EntriesFrom(pat: Pattern, s: string, i: nat): seq<Entry>
    requires Usable(pat)
    decreases |s| - i
  {
    if i >= |s| then []
    else
      var m := MatchAt(pat, s, i);
      if m.Some? then [m.value.0] + EntriesFrom(pat, s, m.value.1)
      else EntriesFrom(pat, s, i + 1)
  }

  /** `captures_iter` of the outdated pattern over the whole report. */
  function OutdatedEntries(s: string): seq<Entry>
  {
    OutdatedPatternUsable();
    EntriesFrom(OutdatedPattern, s, 0)
  }

  /** The text of `e`'s match is written somewhere in `s`. */
  predicate Occurs(pat: Pattern, s: string, e: Entry)
  {
    exists i: nat :: i <= |s| && LitAt(s, i, Written(pat, e))
  }

  /** A match is exactly the entry's text, and its groups stay on one line. */
  lemma {:induction false} MatchAtText(pat: Pattern, s: string, i: nat)
    requires Usable(pat)
    ensures MatchAt(pat, s, i).Some? ==>
              var e := MatchAt(pat, s, i).value.0;
              LitAt(s, i, Written(pat, e)) && '\n' !in e.box && '\n' !in e.provider
  {
    if LitAt(s, i, pat.marker) && MatchBody(pat, s, i + |pat.marker|).Some? {
      var m: nat := i + |pat.marker|;
      var groups := MatchBody(pat, s, m);
      var b: nat, q: nat := groups.value.0, groups.value.1;
      var e := MatchAt(pat, s, i).value.0;
      assert e == Entry(s[m..b], s[b + |pat.sep|..q]);
      GroupsOnLine(pat, s, m, b, q);
      GroupsText(pat, s, i, b, q, e);
    }
  }

  /** The entry captured between a marker at i and group ends b and q is
      written out there, and neither of its parts crosses a line. */
  lemma {:induction false} GroupsText(pat: Pattern, s: string, i: nat, b: nat, q: nat, e: Entry)
    requires LitAt(s, i, pat.marker) && i + |pat.marker| <= b && NoBreak(s, i + |pat.marker|, b)
    requires LitAt(s, b, pat.sep) && b + |pat.sep| <= q && NoBreak(s, b + |pat.sep|, q)
    requires LitAt(s, q, pat.tail)
    requires e == Entry(s[i + |pat.marker|..b], s[b + |pat.sep|..q])
    ensures LitAt(s, i, Written(pat, e)) && '\n' !in e.box && '\n' !in e.provider
  {
    var m: nat := i + |pat.marker|;
    var c: nat := b + |pat.sep|;
    SliceOnLine(s, m, b);
    SliceOnLine(s, c, q);
    WrittenAt(pat, s, i, e);
  }

  /** A slice taken within one line is written where it was taken and holds
      no line break. */
  lemma {:induction false} SliceOnLine(s: string, a: nat, b: nat)
    requires NoBreak(s, a, b)
    ensures LitAt(s, a, s[a..b]) && '\n' !in s[a..b]
  {
    assert forall k :: 0 <= k < b - a ==> s[a..b][k] == s[a + k];
  }

  /** An entry's text is written where its five parts are, one after the
      other. */
  lemma {:induction false} WrittenAt(pat: Pattern, s: string, i: nat, e: Entry)
    requires var b := i + |pat.marker| + |e.box|;
             var q := b + |pat.sep| + |e.provider|;
             && LitAt(s, i, pat.marker) && LitAt(s, i + |pat.marker|, e.box) && LitAt(s, b, pat.sep)
             && LitAt(s, b + |pat.sep|, e.provider) && LitAt(s, q, pat.tail)
    ensures LitAt(s, i, Written(pat, e))
  {
    LitAtConcat(s, i, pat.marker, e.box);
    LitAtConcat(s, i, pat.marker + e.box, pat.sep);
    LitAtConcat(s, i, pat.marker + e.box + pat.sep, e.provider);
    LitAtConcat(s, i, pat.marker + e.box + pat.sep + e.provider, pat.tail);
  }

  /** Each entry found is written out in full in `s`, and its box and
      provider never span a line break. */
  lemma {:induction false} EntriesFound(pat: Pattern, s: string, i: nat)
    requires Usable(pat)
    ensures forall e :: e in EntriesFrom(pat, s, i) ==> Occurs(pat, s, e) && '\n' !in e.box && '\n' !in e.provider
    decreases |s| - i
  {
    if i < |s| {
      var m := MatchAt(pat, s, i);
      MatchAtText(pat, s, i);
      if m.Some? {
        EntriesFound(pat, s, m.value.1);
        assert LitAt(s, i, Written(pat, m.value.0));
      } else {
        EntriesFound(pat, s, i + 1);
      }
    }
  }

  /** Each entry read from the report of `vagrant box outdated` is quoted
      there in full, with its box and provider on one line. */
  lemma OutdatedEntriesFound(s: string)
    ensures forall e :: e in OutdatedEntries(s) ==>
              Occurs(OutdatedPattern, s, e) && '\n' !in e.box && '\n' !in e.provider
  {
    OutdatedPatternUsable();
    EntriesFound(OutdatedPattern, s, 0);
  }

  /** A line of the report: an outdated box (followed by a note such as the
      current and latest versions), or any other line. */
  datatype ReportLine = Outdated(entry: Entry, note: string) | Other(text: string)

  /** Text in which the pattern's tail never occurs. */
  predicate Inert(pat: Pattern, t: string)
  {
    forall i: nat :: i <= |t| ==> !LitAt(t, i, pat.tail)
  }

  /** A box or provider name the report can quote unambiguously. */
  predicate Quotable(w: string)
  {
    '\n' !in w && '\'' !in w
  }

  predicate WellFormed(pat: Pattern, l: ReportLine)
  {
    match l
    case Outdated(e, note) => Quotable(e.box) && Quotable(e.provider) && Inert(pat, note)
    case Other(text) => Inert(pat, text)
  }

  function RenderLine(pat: Pattern, l: ReportLine): string
  {
    match l
    case Outdated(e, note) => Written(pat, e) + note
    case Other(text) => text
  }

  /** The report: each line followed by a line break. */
  function Report(pat: Pattern, lines: seq<ReportLine>): string
  {
    if lines == [] then [] else RenderLine(pat, lines[0]) + "\n" + Report(pat, lines[1..])
  }

  /** The entries the report lists, in order. */
  function Listed(lines: seq<ReportLine>): seq<Entry>
  {
    if lines == [] then []
    else (if lines[0].Outdated? then [lines[0].entry] else []) + Listed(lines[1..])
  }

  /** Reading the report back finds exactly the outdated entries it lists,
      in order, and nothing from the other lines. */
  lemma ReportRoundTrip(lines: seq<ReportLine>)
    requires forall k :: 0 <= k < |lines| ==> WellFormed(OutdatedPattern, lines[k])
    ensures OutdatedEntries(Report(OutdatedPattern, lines)) == Listed(lines)
  {
    OutdatedPatternUsable();
    PatternRoundTrip(OutdatedPattern, lines);
  }

  /** The same for any pattern whose literals keep to one line and whose
      separator and tail open with a quote. */
  lemma PatternRoundTrip(pat: Pattern, lines: seq<ReportLine>)
    requires Usable(pat) && forall k :: 0 <= k < |lines| ==> WellFormed(pat, lines[k])
    ensures EntriesFrom(pat, Report(pat, lines), 0) == Listed(lines)
  {
    var s := Report(pat, lines);
    assert LitAt(s, 0, s);
    ListedFrom(pat, s, 0, lines);
  }

  /** The report's lines, written at the end of `s` from position p on, are
      read back as the entries they list. */
  lemma {:induction false} ListedFrom(pat: Pattern, s: string, p: nat, lines: seq<ReportLine>)
    requires Usable(pat)
    requires forall k :: 0 <= k < |lines| ==> WellFormed(pat, lines[k])
    requires LitAt(s, p, Report(pat, lines)) && p + |Report(pat, lines)| == |s|
    ensures EntriesFrom(pat, s, p) == Listed(lines)
    decreases |lines|
  {
    if lines != [] {
      var line := RenderLine(pat, lines[0]);
      var next := p + |line| + 1;
      assert LitAt(s, p, line + "\n") && LitAt(s, next, Report(pat, lines[1..])) by {
        LitAtConcat(s, p, line + "\n", Report(pat, lines[1..]));
      }
      ListedFrom(pat, s, next, lines[1..]);
      if lines[0].Other? {
        SkipInert(pat, s, p, lines[0].text, p);
        assert Listed(lines) == [] + Listed(lines[1..]);
      } else {
        ListedOutdated(pat, s, p, lines[0].entry, lines[0].note);
        assert Listed(lines) == [lines[0].entry] + Listed(lines[1..]);
      }
    } else {
      assert p == |s|;
    }
  }

  /** An outdated line written at p is read as its entry, then reading goes
      on after the line's break. */
  lemma {:induction false} ListedOutdated(pat: Pattern, s: string, p: nat, e: Entry, note: string)
    requires Usable(pat) && WellFormed(pat, Outdated(e, note))
    requires LitAt(s, p, Written(pat, e) + note + "\n")
    ensures EntriesFrom(pat, s, p) == [e] + EntriesFrom(pat, s, p + |Written(pat, e)| + |note| + 1)
  {
    var written := Written(pat, e);
    assert LitAt(s, p, written) && LitAt(s, p + |written|, note + "\n") by {
      assert written + note + "\n" == written + (note + "\n");
      LitAtConcat(s, p, written, note + "\n");
    }
    MatchWritten(pat, s, p, e);
    assert EntriesFrom(pat, s, p) == [e] + EntriesFrom(pat, s, p + |written|);
    SkipInert(pat, s, p + |written|, note, p + |written|);
  }

  /** An entry written out at position p is matched there, with exactly its
      box and provider, whatever follows it. */
  lemma {:induction false} MatchWritten(pat: Pattern, s: string, p: nat, e: Entry)
    requires Usable(pat) && Quotable(e.box) && Quotable(e.provider)
    requires LitAt(s, p, Written(pat, e))
    ensures MatchAt(pat, s, p) == Some((e, p + |Written(pat, e)|))
  {
    var m: nat := p + |pat.marker|;
    var b: nat := m + |e.box|;
    var c: nat := b + |pat.sep|;
    var q: nat := c + |e.provider|;
    WrittenGroups(pat, s, p, e, m, b, c, q);
    MatchFromGroups(pat, s, p, e, b, q);
  }

  /** Where an entry is written out, the body's groups end after its box and
      after its provider, and capture exactly them. */
  lemma {:induction false} WrittenGroups(pat: Pattern, s: string, p: nat, e: Entry, m: nat, b: nat, c: nat, q: nat)
    requires Usable(pat) && Quotable(e.box) && Quotable(e.provider)
    requires LitAt(s, p, Written(pat, e))
    requires m == p + |pat.marker| && b == m + |e.box| && c == b + |pat.sep| && q == c + |e.provider|
    ensures LitAt(s, p, pat.marker) && MatchBody(pat, s, m) == Some((b, q))
    ensures s[m..b] == e.box && s[c..q] == e.provider
  {
    assert && LitAt(s, p, pat.marker) && LitAt(s, m, e.box) && LitAt(s, b, pat.sep)
           && LitAt(s, c, e.provider) && LitAt(s, q, pat.tail) by {
      LitAtConcat(s, p, pat.marker + e.box + pat.sep + e.provider, pat.tail);
      LitAtConcat(s, p, pat.marker + e.box + pat.sep, e.provider);
      LitAtConcat(s, p, pat.marker + e.box, pat.sep);
      LitAtConcat(s, p, pat.marker, e.box);
    }
    QuotedRun(s, c, e.provider, pat.tail, q);
    QuotedGroup(pat, s, m, e.box, b, c, q);
    SliceOf(s, m, e.box, b);
    SliceOf(s, c, e.provider, q);
  }

  /** A marker followed by the body's match is a match of the entry the
      groups capture. */
  lemma {:induction false} MatchFromGroups(pat: Pattern, s: string, i: nat, e: Entry, b: nat, q: nat)
    requires Usable(pat) && LitAt(s, i, pat.marker) && MatchBody(pat, s, i + |pat.marker|) == Some((b, q))
    requires s[i + |pat.marker|..b] == e.box && s[b + |pat.sep|..q] == e.provider
    ensures MatchAt(pat, s, i) == Some((e, q + |pat.tail|))
  {
  }

  /** The lazy group runs over a quotable word, up to position `to`, where a
      literal that opens with a quote is written. */
  lemma {:induction false} QuotedRun(s: string, from: nat, w: string, lit: string, to: nat)
    requires Quotable(w) && lit != [] && lit[0] == '\''
    requires to == from + |w| && LitAt(s, from, w) && LitAt(s, to, lit)
    ensures LazyUntil(s, from, lit) == Some(to)
    decreases |w|
  {
    if w != [] {
      assert s[from + 0] == w[0];
      assert !LitAt(s, from, lit) by {
        assert s[from + 0] != lit[0];
      }
      LitAtRest(s, from, w);
      QuotedRun(s, from + 1, w[1..], lit, to);
    }
  }

  /** The first group runs over a quotable word up to the separator at b,
      when the second group, from c, closes at q. */
  lemma {:induction false} QuotedGroup(pat: Pattern, s: string, from: nat, w: string, b: nat, c: nat, q: nat)
    requires Usable(pat) && Quotable(w) && LitAt(s, from, w) && LitAt(s, b, pat.sep)
    requires b == from + |w| && c == b + |pat.sep| && LazyUntil(s, c, pat.tail) == Some(q)
    ensures MatchBody(pat, s, from) == Some((b, q))
    decreases |w|
  {
    if w != [] {
      assert s[from + 0] == w[0];
      assert !LitAt(s, from, pat.sep) by {
        assert s[from + 0] != pat.sep[0];
      }
      LitAtRest(s, from, w);
      QuotedGroup(pat, s, from + 1, w[1..], b, c, q);
    }
  }

  /** Inert text written at p and followed by a line break contributes no
      entry from any position inside it. */
  lemma {:induction false} SkipInert(pat: Pattern, s: string, p: nat, t: string, i: nat)
    requires Usable(pat) && Inert(pat, t) && LitAt(s, p, t + "\n") && p <= i <= p + |t|
    ensures EntriesFrom(pat, s, i) == EntriesFrom(pat, s, p + |t| + 1)
    decreases p + |t| - i
  {
    LitAtConcat(s, p, t, "\n");
    assert s[p + |t| + 0] == "\n"[0];
    NoMatchInInert(pat, s, p, t, i);
    if i < p + |t| {
      SkipInert(pat, s, p, t, i + 1);
    }
  }

  /** No match starts inside inert text that a line break ends: a match
      needs the tail before the next line break. */
  lemma {:induction false} NoMatchInInert(pat: Pattern, s: string, p: nat, t: string, i: nat)
    requires Usable(pat) && Inert(pat, t)
    requires LitAt(s, p, t) && p + |t| < |s| && s[p + |t|] == '\n' && p <= i <= p + |t|
    ensures MatchAt(pat, s, i) == None
  {
    MatchAtShape(pat, s, i);
    forall q | p <= q && q + |pat.tail| <= p + |t| && LitAt(s, q, pat.tail)
      ensures LitAt(t, q - p, pat.tail)
    {
      forall j | 0 <= j < |pat.tail|
        ensures t[q - p + j] == pat.tail[j]
      {
        assert s[p + (q - p + j)] == t[q - p + j];
      }
    }
  }

  /** Splitting a literal in two. */
  lemma {:induction false} LitAtConcat(s: string, i: nat, a: string, b: string)
    ensures LitAt(s, i, a + b) <==> LitAt(s, i, a) && LitAt(s, i + |a|, b)
  {
    if LitAt(s, i, a) && LitAt(s, i + |a|, b) {
      forall j | 0 <= j < |a + b|
        ensures s[i + j] == (a + b)[j]
      {
        if j >= |a| {
          assert s[i + |a| + (j - |a|)] == b[j - |a|];
        }
      }
    }
    if LitAt(s, i, a + b) {
      forall j | 0 <= j < |b|
        ensures s[i + |a| + j] == b[j]
      {
        assert s[i + (|a| + j)] == (a + b)[|a| + j];
      }
      forall j | 0 <= j < |a|
        ensures s[i + j] == a[j]
      {
        assert s[i + j] == (a + b)[j];
      }
    }
  }

  /** A literal minus its first character is written one position on. */
  lemma {:induction false} LitAtRest(s: string, i: nat, w: string)
    requires LitAt(s, i, w) && w != []
    ensures s[i] == w[0]
    ensures LitAt(s, i + 1, w[1..])
  {
    assert s[i + 0] == w[0];
    forall j | 0 <= j < |w[1..]|
      ensures s[i + 1 + j] == w[1..][j]
    {
      assert s[i + (j + 1)] == w[j + 1];
    }
  }

  /** What is written at a position is the slice taken there. */
  lemma {:induction false} SliceOf(s: string, a: nat, w: string, b: nat)
    requires LitAt(s, a, w) && b == a + |w|
    ensures s[a..b] == w
  {
    forall j | 0 <= j < |w|
      ensures s[a..b][j] == w[j]
    {
      assert s[a + j] == w[j];
    }
  }
}
