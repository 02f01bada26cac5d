/** StatusParser: turning the text `vagrant status` prints for one directory
    into the boxes of that directory (the pipeline inside
    `Vagrant::get_boxes`). */
module StatusParser {
  import opened Wrappers
  import opened Boxes
  import opened Text

  /** The outcome of parsing: the boxes, or the first listed line that has
      no status keyword — on which the program aborts (it unwraps). */
  datatype Parsed = Parsed(boxes: seq<VagrantBox>) | Malformed(line: string)

  /** `.skip(2)`: the two header lines are dropped unconditionally. */
  function SkipHeader(lines: seq<string>): (r: seq<string>)
    ensures |lines| >= 2 ==> lines == lines[..2] + r
    ensures |lines| < 2 ==> r == []
  {
    if |lines| < 2 then [] else lines[2..]
  }

  /** The listing ends at an empty line or at one that starts with a
      carriage return. */
  predicate EndsListing(line: string)
  {
    line == [] || line[0] == '\r'
  }

  /** `.take_while(...)`: the lines before the first one that ends the listing. */
  function Listing(lines: seq<string>): seq<string>
  {
    if lines == [] || EndsListing(lines[0]) then []
    else [lines[0]] + Listing(lines[1..])
  }

  /** The listing is the front of the lines it is taken from, none of its
      lines ends the listing, and the line after it (if any) does. */
  lemma {:induction false} ListingIsTakeWhile(lines: seq<string>)
    ensures Listing(lines) <= lines
    ensures forall k :: 0 <= k < |Listing(lines)| ==> !EndsListing(Listing(lines)[k])
    ensures |Listing(lines)| < |lines| ==> EndsListing(lines[|Listing(lines)|])
    decreases |lines|
  {
    if lines != [] && !EndsListing(lines[0]) {
      ListingIsTakeWhile(lines[1..]);
    }
  }

  /** One listed line: its first word is the box name and its second the
      status keyword. None when there are fewer than two words or the
      keyword is unknown. */
  function ParseLine(dir: Path, line: string): Option<VagrantBox>
  {
    var words := Tokens(line);
    if |words| < 2 then None
    else
      match StatusFromStr(words[1])
      case None => None
      case Some(status) => Some(VagrantBox(dir, words[0], status))
  }

  /** A line gives a box exactly when it has at least two words and the
      second is a status keyword; the box is named by the first word, has
      that status, and belongs to the directory. */
  lemma LineParsed(dir: Path, line: string)
    ensures ParseLine(dir, line).Some? <==> |Tokens(line)| >= 2 && StatusFromStr(Tokens(line)[1]).Some?
    ensures ParseLine(dir, line).Some? ==>
              var b := ParseLine(dir, line).value;
              b.path == dir && b.name == Tokens(line)[0] && Keyword(b.initialStatus) == Tokens(line)[1]
  {
  }

  /** The listed lines, in order, one box each; the first line that does
      not parse makes the whole parse fail. */
  function ParseLines(dir: Path, lines: seq<string>): Parsed
  {
    if lines == [] then Parsed([])
    else
      match ParseLine(dir, lines[0])
      case None => Malformed(lines[0])
      case Some(b) =>
        match ParseLines(dir, lines[1..])
        case Parsed(bs) => Parsed([b] + bs)
        case Malformed(line) => Malformed(line)
  }

  /** The lines parse exactly when every one of them does, giving one box per
      line in order; otherwise the first line that does not parse is
      reported. */
  lemma {:induction false} LinesParsed(dir: Path, lines: seq<string>)
    ensures var r := ParseLines(dir, lines);
            && (r.Parsed? <==> forall k :: 0 <= k < |lines| ==> ParseLine(dir, lines[k]).Some?)
            && (r.Parsed? ==> |r.boxes| == |lines|
                              && forall k :: 0 <= k < |lines| ==> Some(r.boxes[k]) == ParseLine(dir, lines[k]))
            && (r.Malformed? ==> exists k :: 0 <= k < |lines| && lines[k] == r.line
                                             && ParseLine(dir, r.line).None?
                                             && forall j :: 0 <= j < k ==> ParseLine(dir, lines[j]).Some?)
    decreases |lines|
  {
    if lines != [] {
      LinesParsed(dir, lines[1..]);
      var r := ParseLines(dir, lines);
      var rest := ParseLines(dir, lines[1..]);
      if ParseLine(dir, lines[0]).None? {
        assert r == Malformed(lines[0]);
        assert 0 < |lines| && lines[0] == r.line;
      } else if rest.Malformed? {
        assert r == Malformed(rest.line);
        var k :| 0 <= k < |lines[1..]| && lines[1..][k] == rest.line
                 && ParseLine(dir, rest.line).None?
                 && forall j :: 0 <= j < k ==> ParseLine(dir, lines[1..][j]).Some?;
        assert lines[k + 1] == r.line;
        forall j | 0 <= j < k + 1
          ensures ParseLine(dir, lines[j]).Some?
        {
          if j > 0 {
            assert lines[j] == lines[1..][j - 1];
          }
        }
      } else {
        assert r == Parsed([ParseLine(dir, lines[0]).value] + rest.boxes);
        forall k | 0 <= k < |lines|
          ensures Some(r.boxes[k]) == ParseLine(dir, lines[k])
        {
          if k > 0 {
            assert lines[k] == lines[1..][k - 1];
          }
        }
      }
    }
  }

  /** The boxes listed in the standard output of `vagrant status` run in `dir`. */
  function ParseStatusOutput(dir: Path, stdout: string): Parsed
  {
    ParseLines(dir, Listing(SkipHeader(Split(stdout, '\n'))))
  }

  /** A successful parse yields one box per listed line, in order, with the
      line's name and status, and every box carries the directory it was
      listed in. */
  lemma {:induction false} StatusParseShape(dir: Path, stdout: string)
    ensures var listed := Listing(SkipHeader(Split(stdout, '\n')));
            match ParseStatusOutput(dir, stdout)
            case Parsed(bs) =>
              && |bs| == |listed|
              && forall k :: 0 <= k < |bs| ==>
                   && bs[k].path == dir
                   && |Tokens(listed[k])| >= 2
                   && bs[k].name == Tokens(listed[k])[0]
                   && Keyword(bs[k].initialStatus) == Tokens(listed[k])[1]
            case Malformed(line) =>
              && line in listed
              && (|Tokens(line)| < 2 || StatusFromStr(Tokens(line)[1]).None?)
  {
    var listed := Listing(SkipHeader(Split(stdout, '\n')));
    LinesParsed(dir, listed);
    match ParseStatusOutput(dir, stdout)
    case Parsed(bs) =>
      forall k | 0 <= k < |bs|
        ensures bs[k].path == dir && |Tokens(listed[k])| >= 2 && bs[k].name == Tokens(listed[k])[0]
                && Keyword(bs[k].initialStatus) == Tokens(listed[k])[1]
      {
        assert Some(bs[k]) == ParseLine(dir, listed[k]);
        LineParsed(dir, listed[k]);
      }
    case Malformed(line) =>
      LineParsed(dir, line);
  }

  /** How `vagrant status` prints one box: its name, its keyword and any
      further words (the provider, in parentheses), each followed by the
      whitespace its column is padded with; after the last word there may be
      more, such as the carriage return of a CRLF line end. */
  datatype Row = Row(box: VagrantBox, extra: seq<string>, gaps: seq<string>)

  function Words(r: Row): seq<string>
  {
    [r.box.name, Keyword(r.box.initialStatus)] + r.extra
  }

  /** A row that prints as one line: words separated by whitespace other
      than a line break. */
  predicate Printable(r: Row)
  {
    Separated(Words(r), r.gaps) && forall k :: 0 <= k < |r.gaps| ==> '\n' !in r.gaps[k]
  }

  function RowText(r: Row): string
    requires Printable(r)
  {
    Laid(Words(r), r.gaps)
  }

  function RowLines(rows: seq<Row>): (r: seq<string>)
    requires forall k :: 0 <= k < |rows| ==> Printable(rows[k])
    ensures |r| == |rows|
  {
    seq(|rows|, k requires 0 <= k < |rows| => RowText(rows[k]))
  }

  /** The boxes the rows show, in order. */
  function ShownBoxes(rows: seq<Row>): seq<VagrantBox>
  {
    seq(|rows|, k requires 0 <= k < |rows| => rows[k].box)
  }

  /** The whole status output for a directory: two header lines, one line
      per box, a line that ends the listing (empty, or a lone carriage
      return when lines end in CRLF), and trailing explanation lines. */
  function StatusOutput(header: seq<string>, rows: seq<Row>, end: string, trailer: seq<string>): string
    requires |header| == 2
    requires forall k :: 0 <= k < |rows| ==> Printable(rows[k])
  {
    Join(header + (RowLines(rows) + ([end] + trailer)), '\n')
  }

  /** Parsing the status output of a directory gives back exactly the boxes
      it lists, however its columns are padded, whether its lines end in
      CRLF, and whatever the header and trailer say. */
  lemma {:induction false} StatusRoundTrip(dir: Path, header: seq<string>, rows: seq<Row>, end: string, trailer: seq<string>)
    requires |header| == 2
    requires forall k :: 0 <= k < |header| ==> '\n' !in header[k]
    requires EndsListing(end) && '\n' !in end
    requires forall k :: 0 <= k < |trailer| ==> '\n' !in trailer[k]
    requires forall k :: 0 <= k < |rows| ==> Printable(rows[k]) && rows[k].box.path == dir
    ensures ParseStatusOutput(dir, StatusOutput(header, rows, end, trailer)) == Parsed(ShownBoxes(rows))
  {
    var lines := RowLines(rows);
    forall k | 0 <= k < |lines|
      ensures '\n' !in lines[k] && !EndsListing(lines[k])
      ensures Tokens(lines[k]) == Words(rows[k])
    {
      RowLine(rows[k]);
    }
    ListedLines(header, lines, end, trailer);
    ParseRows(dir, rows);
  }

  /** A printed row is a single line that does not end the listing, and its
      words are the name, the keyword and the further words. */
  lemma {:induction false} RowLine(r: Row)
    requires Printable(r)
    ensures '\n' !in RowText(r) && !EndsListing(RowText(r))
    ensures Tokens(RowText(r)) == Words(r)
  {
    var ws := Words(r);
    assert IsWord(Keyword(r.box.initialStatus));
    TokensOfLaid([], ws, r.gaps);
    assert [] + RowText(r) == RowText(r);
    LaidStart(ws, r.gaps);
    LaidNoNewline(ws, r.gaps);
  }

  lemma {:induction false} LaidNoNewline(ws: seq<string>, gaps: seq<string>)
    requires |gaps| == |ws|
    requires forall k :: 0 <= k < |ws| ==> '\n' !in ws[k] && '\n' !in gaps[k]
    ensures '\n' !in Laid(ws, gaps)
    decreases |ws|
  {
    if ws != [] {
      assert forall k :: 0 <= k < |ws| - 1 ==> ws[1..][k] == ws[k + 1] && gaps[1..][k] == gaps[k + 1];
      LaidNoNewline(ws[1..], gaps[1..]);
    }
  }

  /** The listing of a rendered output is exactly its box lines. */
  lemma {:induction false} ListedLines(header: seq<string>, lines: seq<string>, end: string, trailer: seq<string>)
    requires |header| == 2
    requires forall k :: 0 <= k < |header| ==> '\n' !in header[k]
    requires EndsListing(end) && '\n' !in end
    requires forall k :: 0 <= k < |trailer| ==> '\n' !in trailer[k]
    requires forall k :: 0 <= k < |lines| ==> '\n' !in lines[k] && !EndsListing(lines[k])
    ensures Listing(SkipHeader(Split(Join(header + (lines + ([end] + trailer)), '\n'), '\n'))) == lines
  {
    var tail := lines + ([end] + trailer);
    var all := header + tail;
    NoNewlineInRendered(header, lines, end, trailer);
    SplitJoin(all, '\n');
    assert SkipHeader(all) == tail;
    ListingStopsAtEmpty(lines, [end] + trailer);
  }

  lemma {:induction false} NoNewlineInRendered(header: seq<string>, lines: seq<string>, end: string, trailer: seq<string>)
    requires forall k :: 0 <= k < |header| ==> '\n' !in header[k]
    requires '\n' !in end
    requires forall k :: 0 <= k < |trailer| ==> '\n' !in trailer[k]
    requires forall k :: 0 <= k < |lines| ==> '\n' !in lines[k]
    ensures var all := header + (lines + ([end] + trailer));
            forall k :: 0 <= k < |all| ==> '\n' !in all[k]
  {
    var all := header + (lines + ([end] + trailer));
    forall k | 0 <= k < |all|
      ensures '\n' !in all[k]
    {
      if k < |header| {
        assert all[k] == header[k];
      } else if k < |header| + |lines| {
        assert all[k] == lines[k - |header|];
      } else if k == |header| + |lines| {
        assert all[k] == end;
      } else {
        assert all[k] == trailer[k - |header| - |lines| - 1];
      }
    }
  }

  /** Printed rows whose words are as printed parse back to their boxes. */
  lemma {:induction false} ParseRows(dir: Path, rows: seq<Row>)
    requires forall k :: 0 <= k < |rows| ==> Printable(rows[k]) && rows[k].box.path == dir
    requires var lines := RowLines(rows);
             forall k :: 0 <= k < |lines| ==> Tokens(lines[k]) == Words(rows[k])
    ensures ParseLines(dir, RowLines(rows)) == Parsed(ShownBoxes(rows))
  {
    var lines := RowLines(rows);
    forall k | 0 <= k < |lines|
      ensures ParseLine(dir, lines[k]) == Some(rows[k].box)
    {
      var status := rows[k].box.initialStatus;
      assert StatusFromStr(Keyword(status)) == Some(status);
    }
    LinesParsed(dir, lines);
    var r := ParseLines(dir, lines);
    assert r.Parsed?;
    assert r.boxes == ShownBoxes(rows);
  }

  lemma {:induction false} ListingStopsAtEmpty(lines: seq<string>, rest: seq<string>)
    requires forall k :: 0 <= k < |lines| ==> !EndsListing(lines[k])
    requires rest != [] && EndsListing(rest[0])
    ensures Listing(lines + rest) == lines
    decreases |lines|
  {
    if lines != [] {
      assert (lines + rest)[1..] == lines[1..] + rest;
      ListingStopsAtEmpty(lines[1..], rest);
    }
  }

}
