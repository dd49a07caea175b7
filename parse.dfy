/** The command-line tokenizer `parseLine` and its twin `parseArgc`.

    The routines copy the line into a buffer, turn its last character (the
    newline) into a blank and walk a pointer over the buffer: runs of blanks
    are skipped, a word that starts with a single quote runs to the next single
    quote (both quotes dropped), any other word runs to the next blank. A word
    whose delimiter is never found is dropped with everything after it. The
    pointer is modelled as the rest of the buffer from the pointer on, `buf`;
    `buf := buf[1..]` is `buf++`. */
module Parse {
  import opened Wrappers

  /** `strchr`: the offset of the first `c` in `s`. */
  function IndexOf(s: string, c: char): (r: Option<nat>)
    ensures r.Some? ==> r.value < |s| && s[r.value] == c
    ensures r.Some? ==> forall j :: 0 <= j < r.value ==> s[j] != c
    ensures r.None? ==> forall j :: 0 <= j < |s| ==> s[j] != c
  {
    if s == [] then None
    else if s[0] == c then Some(0)
    else match IndexOf(s[1..], c)
      case None => None
      case Some(k) => Some(k + 1)
  }

  /** What is left of `s` once its leading blanks are skipped. */
  function SkipSpaces(s: string): (r: string)
    ensures |r| <= |s| && r == s[|s| - |r|..]
    ensures r == [] || r[0] != ' '
    ensures forall i :: 0 <= i < |s| - |r| ==> s[i] == ' '
  {
    if s != [] && s[0] == ' ' then SkipSpaces(s[1..]) else s
  }

  /** The start of a word and its delimiter: after an opening quote the word
      starts one further on and ends at the next quote; otherwise it ends at
      the next blank. */
  function Delimit(s: string): (r: (string, Option<nat>))
    ensures |r.0| <= |s|
    ensures r.1.Some? ==> r.1.value < |r.0|
  {
    if s != [] && s[0] == '\'' then (s[1..], IndexOf(s[1..], '\''))
    else (s, IndexOf(s, ' '))
  }

  /** Which delimiter a word looks for: after an opening quote the word
      starts one character on and ends at the next quote; any other word
      starts where it is and ends at the next blank. */
  lemma DelimitChoice(s: string)
    ensures s != [] && s[0] == '\'' ==>
              |Delimit(s).0| + 1 == |s| && Delimit(s).0 == s[1..] && Delimit(s).1 == IndexOf(s[1..], '\'')
    ensures !(s != [] && s[0] == '\'') ==> Delimit(s).0 == s && Delimit(s).1 == IndexOf(s, ' ')
  {
  }

  /** The words of a buffer whose leading blanks were skipped. */
  function Scan(s: string): (r: seq<string>)
    decreases |s|
  {
    var (buf, delim) := Delimit(s);
    match delim
    case None => []
    case Some(d) => [buf[..d]] + Scan(SkipSpaces(buf[d + 1..]))
  }

  /** The words still to come when the pointer is at `buf` and the pending
      delimiter is `delim`. */
  function Pending(buf: string, delim: Option<nat>): (r: seq<string>)
    requires delim.Some? ==> delim.value < |buf|
  {
    match delim
    case None => []
    case Some(d) => [buf[..d]] + Scan(SkipSpaces(buf[d + 1..]))
  }

  /** The local copy of the line with its last character turned into a blank. */
  function Buffer(cmdline: string): (r: string)
    requires |cmdline| >= 1
  {
    cmdline[..|cmdline| - 1] + " "
  }

  /** The copy keeps the line's length and every character but the last,
      which becomes a blank. */
  lemma BufferReplacesNewline(cmdline: string)
    requires |cmdline| >= 1
    ensures |Buffer(cmdline)| == |cmdline| && Buffer(cmdline)[|cmdline| - 1] == ' '
    ensures forall i :: 0 <= i < |cmdline| - 1 ==> Buffer(cmdline)[i] == cmdline[i]
  {
  }

  /** Every word the tokenizer finds on the line, the '&' word included. */
  function Words(cmdline: string): (r: seq<string>)
    requires |cmdline| >= 1
  {
    Scan(SkipSpaces(Buffer(cmdline)))
  }

  /** Each word uses up at least its delimiter, so a buffer holds no more
      words than characters. */
  lemma {:induction false} ScanBound(s: string)
    ensures |Scan(s)| <= |s|
    decreases |s|
  {
    var (buf, delim) := Delimit(s);
    if delim.Some? {
      var rest := SkipSpaces(buf[delim.value + 1..]);
      ScanBound(rest);
    }
  }

  /** A word asks for a background job when its first character is '&'. */
  predicate IsAmpersand(w: string) {
    w != [] && w[0] == '&'
  }

  lemma ScanUnfolds(s: string)
    ensures Scan(s) == Pending(Delimit(s).0, Delimit(s).1)
  {
  }

  /** Skip the blanks before a word, step over an opening quote and find the
      word's delimiter: the step both routines repeat. */
  method NextWord(start: string) returns (buf: string, delim: Option<nat>)
    ensures delim.Some? ==> delim.value < |buf|
    ensures |buf| <= |start|
    ensures Pending(buf, delim) == Scan(SkipSpaces(start))
  {
    buf := start;
    while buf != [] && buf[0] == ' '
      invariant |buf| <= |start|
      invariant SkipSpaces(buf) == SkipSpaces(start)
    {
      buf := buf[1..];
    }
    ghost var word := buf;
    ScanUnfolds(word);
    if buf != [] && buf[0] == '\'' {
      buf := buf[1..];
      delim := IndexOf(buf, '\'');
    } else {
      delim := IndexOf(buf, ' ');
    }
  }

  lemma Associative<T>(a: seq<T>, b: seq<T>, c: seq<T>)
    ensures a + (b + c) == (a + b) + c
  {
  }

  lemma HeadTail<T>(s: seq<T>)
    requires s != []
    ensures [s[0]] + s[1..] == s
  {
  }

  /** The shared pointer walk of both routines: builds argv. */
  method BuildArgv(cmdline: string) returns (argv: seq<string>)
    requires |cmdline| >= 1
    ensures argv == Words(cmdline)
  {
    var buf, delim := NextWord(Buffer(cmdline));
    argv := [];
    while delim.Some?
      invariant delim.Some? ==> delim.value < |buf|
      invariant argv + Pending(buf, delim) == Words(cmdline)
      decreases |buf|
    {
      var d := delim.value;
      var word := buf[..d];
      ghost var later := Scan(SkipSpaces(buf[d + 1..]));
      assert Pending(buf, delim) == [word] + later;
      Associative(argv, [word], later);
      argv := argv + [word];
      buf, delim := NextWord(buf[d + 1..]);
    }
  }

  /** What both routines make of the words: the flag `parseLine` returns (1
      for a blank line or a last word starting with '&') and argv, which loses
      that last word. */
  function SplitBackground(ws: seq<string>): (r: (int, seq<string>))
    ensures r.0 == 0 || r.0 == 1
    ensures r.0 == 1 <==> ws == [] || IsAmpersand(ws[|ws| - 1])
    ensures r.0 == 0 ==> r.1 == ws
    ensures ws == [] ==> r.1 == []
    ensures ws != [] && r.0 == 1 ==> r.1 + [ws[|ws| - 1]] == ws
  {
    if ws == [] then (1, [])
    else if IsAmpersand(ws[|ws| - 1]) then (1, ws[..|ws| - 1])
    else (0, ws)
  }

  /** `parseLine`: the background flag and argv. */
  method ParseLine(cmdline: string) returns (bg: int, argv: seq<string>)
    requires |cmdline| >= 1
    ensures (bg, argv) == SplitBackground(Words(cmdline))
  {
    var words := BuildArgv(cmdline);
    var argc := |words|;
    argv := words;
    if argc == 0 {
      return 1, argv;
    }
    if IsAmpersand(argv[argc - 1]) {
      bg := 1;
      argv := argv[..argc - 1];
    } else {
      bg := 0;
    }
  }

  /** `parseArgc`: the number of words in argv, and argv. */
  method ParseArgc(cmdline: string) returns (argc: int, argv: seq<string>)
    requires |cmdline| >= 1
    ensures argc == |argv|
    ensures argv == SplitBackground(Words(cmdline)).1
  {
    var words := BuildArgv(cmdline);
    argv := words;
    argc := |argv|;
    if argc == 0 {
      return 0, argv;
    }
    if IsAmpersand(argv[argc - 1]) {
      argv := argv[..argc - 1];
      argc := argc - 1;
    }
  }

  // ---------------------------------------------------------------------
  // Properties of the tokenizer

  /** A line of blanks (before its newline) has no words. */
  lemma BlankLineHasNoWords(cmdline: string)
    requires |cmdline| >= 1
    requires forall i :: 0 <= i < |cmdline| - 1 ==> cmdline[i] == ' '
    ensures Words(cmdline) == []
  {
    assert SkipSpaces(Buffer(cmdline)) == [];
  }

  /** A word that reads back as itself between blanks: not empty, no blank,
      and not opening with a quote. */
  predicate Plain(w: string) {
    w != [] && w[0] != '\'' && forall i :: 0 <= i < |w| ==> w[i] != ' '
  }

  /** The words joined with single blanks. */
  function Join(ws: seq<string>): (r: string)
    decreases |ws|
  {
    if ws == [] then "" else if |ws| == 1 then ws[0] else ws[0] + " " + Join(ws[1..])
  }

  /** Each word followed by one blank. */
  function Spaced(ws: seq<string>): (r: string)
    decreases |ws|
  {
    if ws == [] then "" else ws[0] + " " + Spaced(ws[1..])
  }

  lemma {:induction false} JoinThenBlank(ws: seq<string>)
    requires ws != []
    ensures Join(ws) + " " == Spaced(ws)
    decreases |ws|
  {
    if |ws| > 1 {
      JoinThenBlank(ws[1..]);
    }
  }

  /** A plain word followed by a blank is read as that word; the blanks that
      follow are skipped and the scan resumes at the next word. */
  lemma ScanWord(w: string, rest: string)
    requires Plain(w)
    ensures Scan(w + " " + rest) == [w] + Scan(SkipSpaces(rest))
  {
    var s := w + " " + rest;
    assert s == w + (" " + rest);
    IndexOfAfterWord(w, ' ', " " + rest);
    ScanUnfolds(s);
    assert s[..|w|] == w;
    assert s[|w| + 1..] == rest;
  }

  lemma {:induction false} ScanSpaced(ws: seq<string>)
    requires forall k :: 0 <= k < |ws| ==> Plain(ws[k])
    ensures Scan(Spaced(ws)) == ws
    decreases |ws|
  {
    if ws != [] {
      var tail := ws[1..];
      var rest := Spaced(tail);
      if tail != [] {
        assert tail[0] == ws[1];
        SpacedStartsWithWord(tail);
      }
      assert Spaced(ws) == ws[0] + " " + rest;
      ScanWord(ws[0], rest);
      assert SkipSpaces(rest) == rest;
      ScanSpaced(tail);
      HeadTail(ws);
    }
  }

  lemma {:induction false} IndexOfAfterWord(w: string, c: char, rest: string)
    requires forall i :: 0 <= i < |w| ==> w[i] != c
    requires rest != [] && rest[0] == c
    ensures IndexOf(w + rest, c) == Some(|w|)
  {
    var s := w + rest;
    assert s[|w|] == c;
  }

  lemma BufferOfJoined(ws: seq<string>)
    ensures Buffer(Join(ws) + "\n") == Join(ws) + " "
  {
    var line := Join(ws) + "\n";
    assert line[..|line| - 1] == Join(ws);
  }

  lemma SpacedStartsWithWord(ws: seq<string>)
    requires ws != [] && Plain(ws[0])
    ensures SkipSpaces(Spaced(ws)) == Spaced(ws)
  {
    assert Spaced(ws) == ws[0] + (" " + Spaced(ws[1..]));
    assert Spaced(ws)[0] == ws[0][0];
  }

  /** Round trip: joining plain words with blanks and ending the line with a
      newline gives back exactly those words. */
  lemma WordsOfJoinedLine(ws: seq<string>)
    requires forall k :: 0 <= k < |ws| ==> Plain(ws[k])
    ensures Words(Join(ws) + "\n") == ws
  {
    BufferOfJoined(ws);
    if ws == [] {
      assert SkipSpaces(" ") == [];
    } else {
      JoinThenBlank(ws);
      SpacedStartsWithWord(ws);
      ScanSpaced(ws);
    }
  }

  /** A line whose last word is '&' reads as its words followed by that '&'
      word, which both routines then drop. */
  lemma WordsOfBackgroundLine(ws: seq<string>)
    requires forall k :: 0 <= k < |ws| ==> Plain(ws[k])
    ensures Words(Join(ws + ["&"]) + "\n") == ws + ["&"]
    ensures IsAmpersand(Words(Join(ws + ["&"]) + "\n")[|ws|])
  {
    AllPlainAppend(ws, "&");
    WordsOfJoinedLine(ws + ["&"]);
    assert (ws + ["&"])[|ws|] == "&";
  }

  lemma AllPlainAppend(ws: seq<string>, w: string)
    requires forall k :: 0 <= k < |ws| ==> Plain(ws[k])
    requires Plain(w)
    ensures forall k :: 0 <= k < |ws + [w]| ==> Plain((ws + [w])[k])
  {
    forall k | 0 <= k < |ws + [w]| ensures Plain((ws + [w])[k]) {
      if k < |ws| {
        assert (ws + [w])[k] == ws[k];
      }
    }
  }

  /** A quoted span is one word, blanks included, without its quotes; the
      scan resumes after the closing quote. */
  lemma ScanQuoted(w: string, rest: string)
    requires forall i :: 0 <= i < |w| ==> w[i] != '\''
    ensures Scan("'" + (w + ("'" + rest))) == [w] + Scan(SkipSpaces(rest))
  {
    var inner := w + ("'" + rest);
    var s := "'" + inner;
    DelimitQuoted(w, rest);
    ScanUnfolds(s);
    assert Scan(s) == Pending(inner, Some(|w|));
    PendingQuoted(w, rest);
  }

  lemma PendingQuoted(w: string, rest: string)
    ensures Pending(w + ("'" + rest), Some(|w|)) == [w] + Scan(SkipSpaces(rest))
  {
    var inner := w + ("'" + rest);
    assert inner[..|w|] == w;
    assert inner[|w| + 1..] == rest;
    assert Pending(inner, Some(|w|)) == [inner[..|w|]] + Scan(SkipSpaces(inner[|w| + 1..]));
  }

  lemma DelimitQuoted(w: string, rest: string)
    requires forall i :: 0 <= i < |w| ==> w[i] != '\''
    ensures Delimit("'" + (w + ("'" + rest))).0 == w + ("'" + rest)
    ensures Delimit("'" + (w + ("'" + rest))).1 == Some(|w|)
  {
    var inner := w + ("'" + rest);
    assert ("'" + inner)[1..] == inner;
    IndexOfAfterWord(w, '\'', "'" + rest);
  }
}
