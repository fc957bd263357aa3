/** The build tool embed_text.cc: it turns a text file (the shaders) into a
    C++ header declaring one `constexpr const char*` whose value is the
    file's text. Each input line becomes one string literal; the literals
    are concatenated by the C++ compiler. */
module EmbedText {
  import opened Wrappers

  // ---------------------------------------------------------------------
  // Escaping one line
  // ---------------------------------------------------------------------

  /** The spelling of one character inside the emitted literal
      (embed_text.cc:27-41): quote, tab and backslash are escaped, every
      other character is copied. */
  function EscapeChar(c: char): (e: string)
    ensures 1 <= |e| <= 2
  {
    if c == '"' then ['\\', '"']
    else if c == '\t' then ['\\', 't']
    else if c == '\\' then ['\\', '\\']
    else [c]
  }

  predicate Special(c: char) {
    c == '"' || c == '\t' || c == '\\'
  }

  function Specials(s: string): nat {
    if |s| == 0 then 0 else (if Special(s[0]) then 1 else 0) + Specials(s[1..])
  }

  /** The escaped body of one line: one character longer per special
      character; it never holds a raw tab, and holds a newline only where
      the line does; every quote in it follows a backslash, so no quote
      ends the literal early. */
  function Escape(s: string): (e: string)
    ensures |e| == |s| + Specials(s)
    ensures '\t' !in e
    ensures '\n' in e <==> '\n' in s
    ensures forall i | 0 <= i < |e| && e[i] == '"' :: 0 < i && e[i - 1] == '\\'
    decreases |s|
  {
    if |s| == 0 then []
    else
      var rest := Escape(s[1..]);
      var head := EscapeChar(s[0]);
      assert s == [s[0]] + s[1..];
      assert '\n' in s <==> s[0] == '\n' || '\n' in s[1..];
      assert forall i | |head| <= i < |head| + |rest| :: (head + rest)[i] == rest[i - |head|];
      head + rest
  }

  /** The C++ reading of a literal body Escape can produce: the three
      escapes back to their characters; a raw quote, a raw tab, a lone
      backslash or any other escape is refused. */
  function Unescape(e: string): Option<string>
    decreases |e|
  {
    if |e| == 0 then Some([])
    else if e[0] == '\\' then
      if |e| < 2 then None
      else
        var c := if e[1] == '"' then Some('"')
          else if e[1] == 't' then Some('\t')
          else if e[1] == '\\' then Some('\\')
          else None;
        match (c, Unescape(e[2..]))
        case (Some(ch), Some(rest)) => Some([ch] + rest)
        case _ => None
    else if e[0] == '"' || e[0] == '\t' then None
    else
      match Unescape(e[1..])
      case Some(rest) => Some([e[0]] + rest)
      case None => None
  }

  lemma {:induction false} EscapeThenUnescape(s: string)
    ensures Unescape(Escape(s)) == Some(s)
    decreases |s|
  {
    if |s| > 0 {
      var e := Escape(s);
      var rest := Escape(s[1..]);
      EscapeThenUnescape(s[1..]);
      var k := |EscapeChar(s[0])|;
      assert e == EscapeChar(s[0]) + rest;
      assert e[k..] == rest;
      assert s == [s[0]] + s[1..];
    }
  }

  lemma {:induction false} UnescapeThenEscape(e: string, s: string)
    requires Unescape(e) == Some(s)
    ensures Escape(s) == e
    decreases |e|
  {
    if |e| > 0 {
      if e[0] == '\\' {
        var rest := Unescape(e[2..]).value;
        UnescapeThenEscape(e[2..], rest);
        assert s[1..] == rest;
        assert e == e[..2] + e[2..];
      } else {
        var rest := Unescape(e[1..]).value;
        UnescapeThenEscape(e[1..], rest);
        assert s[1..] == rest;
        assert e == [e[0]] + e[1..];
      }
    }
  }

  /** Escaping is exactly inverted by the compiler's reading of the literal:
      e is the escaped spelling of s if and only if e reads back as s. */
  lemma EscapeInverse(s: string, e: string)
    ensures Escape(s) == e <==> Unescape(e) == Some(s)
  {
    if Escape(s) == e {
      EscapeThenUnescape(s);
    }
    if Unescape(e) == Some(s) {
      UnescapeThenEscape(e, s);
    }
  }

  // ---------------------------------------------------------------------
  // Lines, as std::getline reads them
  // ---------------------------------------------------------------------

  /** The length of the first line of c: the offset of its first newline,
      or |c| when there is none. */
  function LineLength(c: string): (k: nat)
    ensures k <= |c|
    ensures k < |c| ==> c[k] == '\n'
    ensures '\n' !in c[..k]
    decreases |c|
  {
    if |c| == 0 || c[0] == '\n' then 0
    else
      var k := 1 + LineLength(c[1..]);
      assert c[..k] == [c[0]] + c[1..][..k - 1];
      k
  }

  /** The lines `while (std::getline(f, line))` yields: split at each
      newline, the newline dropped; a last line without a newline still
      counts, and a final newline does not start an empty line. */
  function Lines(c: string): (ls: seq<string>)
    ensures forall i | 0 <= i < |ls| :: '\n' !in ls[i]
    decreases |c|
  {
    if |c| == 0 then []
    else
      var k := LineLength(c);
      [c[..k]] + (if k < |c| then Lines(c[k + 1..]) else [])
  }

  /** Lines put back together, each ended by a newline. */
  function Join(ls: seq<string>): string {
    if |ls| == 0 then [] else ls[0] + "\n" + Join(ls[1..])
  }

  /** The text with a final newline added when it lacks one. */
  function Terminated(c: string): string {
    if |c| == 0 || c[|c| - 1] == '\n' then c else c + "\n"
  }

  /** Rejoining the lines gives back the text, plus a final newline when it
      lacked one. */
  lemma {:induction false} JoinLines(c: string)
    ensures Join(Lines(c)) == Terminated(c)
    decreases |c|
  {
    if |c| > 0 {
      var k := LineLength(c);
      if k < |c| {
        var first, rest := c[..k], c[k + 1..];
        JoinLines(rest);
        SplitAtNewline(c, k);
        assert Join(Lines(c)) == first + "\n" + Join(Lines(rest));
        TerminatedPrefix(first + "\n", rest);
      } else {
        assert Lines(c) == [c[..k]];
        assert c[..k] == c;
        assert c[|c| - 1] in c[..k];
      }
    }
  }

  /** A text whose first line ends at offset k is that line, a newline and
      the rest. */
  lemma SplitAtNewline(c: string, k: int)
    requires 0 <= k < |c| && c[k] == '\n'
    ensures c == c[..k] + "\n" + c[k + 1..]
  {
    assert c == c[..k] + [c[k]] + c[k + 1..];
  }

  /** Terminating a text ended by a newline-ended prefix and a rest
      terminates the rest. */
  lemma TerminatedPrefix(p: string, rest: string)
    requires |p| > 0 && p[|p| - 1] == '\n'
    ensures Terminated(p + rest) == p + Terminated(rest)
  {
    if |rest| > 0 {
      assert (p + rest)[|p + rest| - 1] == rest[|rest| - 1];
    } else {
      assert p + rest == p;
    }
  }

  /** Conversely, splitting newline-free lines joined together gives them
      back. */
  lemma {:induction false} LinesJoin(ls: seq<string>)
    requires forall i | 0 <= i < |ls| :: '\n' !in ls[i]
    ensures Lines(Join(ls)) == ls
    decreases |ls|
  {
    if |ls| > 0 {
      var l, rest := ls[0], Join(ls[1..]);
      var c := l + "\n" + rest;
      assert Join(ls) == c;
      FirstLineLength(l, rest);
      Parts(l, rest);
      LinesJoin(ls[1..]);
      assert Lines(c) == [l] + Lines(rest);
    }
  }

  /** Where the line and the rest stand in `l + "\n" + rest`. */
  lemma Parts(l: string, rest: string)
    ensures (l + "\n" + rest)[..|l|] == l
    ensures (l + "\n" + rest)[|l| + 1..] == rest
  {
  }

  /** A newline-free line followed by a newline: its length is the first
      line length. */
  lemma {:induction false} FirstLineLength(l: string, rest: string)
    requires '\n' !in l
    ensures LineLength(l + "\n" + rest) == |l|
    decreases |l|
  {
    var c := l + "\n" + rest;
    if |l| > 0 {
      assert c[1..] == l[1..] + "\n" + rest;
      assert '\n' !in l[1..] by {
        forall i | 0 <= i < |l[1..]| ensures l[1..][i] != '\n' {
          assert l[1..][i] == l[i + 1];
        }
      }
      FirstLineLength(l[1..], rest);
    }
  }

  // ---------------------------------------------------------------------
  // The generated header
  // ---------------------------------------------------------------------

  /** The header lines before the literals (embed_text.cc:17-19). */
  function Preamble(inputFile: string, symbol: string): string {
    "// Generated from " + inputFile + "\n" + "\n" + "constexpr const char* " + symbol + " = \"\"\n"
  }

  /** The statement end after the literals (embed_text.cc:46). */
  const Footer: string := "    ;\n\n"

  /** The literal emitted for one input line, without its newline
      (embed_text.cc:23-43): an indented quoted escaped line ended by the
      escape `\n`. */
  function Literal(l: string): string {
    "    \"" + Escape(l) + "\\n\""
  }

  /** The literals of a sequence of lines. */
  function Literals(ls: seq<string>): (ms: seq<string>)
    ensures |ms| == |ls|
    ensures forall i | 0 <= i < |ls| :: ms[i] == Literal(ls[i])
  {
    if |ls| == 0 then [] else [Literal(ls[0])] + Literals(ls[1..])
  }

  /** What write_file prints for a readable file with text `content`. */
  function Generated(inputFile: string, symbol: string, content: string): string {
    Preamble(inputFile, symbol) + Join(Literals(Lines(content))) + Footer
  }

  /** The compiler's reading of one emitted literal line: the indentation
      and quotes around it, the body unescaped and the trailing `\n`
      escape turned into a newline. */
  function ReadLiteral(m: string): Option<string> {
    if |m| >= 8 && m[..5] == "    \"" && m[|m| - 3..] == "\\n\"" then
      match Unescape(m[5..|m| - 3])
      case Some(v) => Some(v + "\n")
      case None => None
    else None
  }

  /** The string value of consecutive literal lines, which C++ concatenates;
      None when some line is not a literal of this form. */
  function ReadLiterals(ms: seq<string>): Option<string> {
    if |ms| == 0 then Some([])
    else
      match (ReadLiteral(ms[0]), ReadLiterals(ms[1..]))
      case (Some(v), Some(rest)) => Some(v + rest)
      case _ => None
  }

  /** Each emitted literal is one newline-free source line and reads back
      as its input line with a newline. */
  lemma LiteralReadsBack(l: string)
    requires '\n' !in l
    ensures '\n' !in Literal(l)
    ensures ReadLiteral(Literal(l)) == Some(l + "\n")
  {
    var m := Literal(l);
    var e := Escape(l);
    assert m[..5] == "    \"";
    assert m[|m| - 3..] == "\\n\"";
    assert m[5..|m| - 3] == e;
    EscapeThenUnescape(l);
    assert '\n' !in m by {
      assert m == "    \"" + e + "\\n\"";
    }
  }

  lemma {:induction false} LiteralsReadBack(ls: seq<string>)
    requires forall i | 0 <= i < |ls| :: '\n' !in ls[i]
    ensures ReadLiterals(Literals(ls)) == Some(Join(ls))
    decreases |ls|
  {
    if |ls| > 0 {
      LiteralReadsBack(ls[0]);
      LiteralsReadBack(ls[1..]);
      assert Literals(ls)[1..] == Literals(ls[1..]);
    }
  }

  /** The header body splits back into exactly the emitted literal lines,
      and the string they spell in C++ is the input text (with a final
      newline added when it lacked one): the embedding loses nothing. */
  lemma EmbeddedValue(content: string)
    ensures Lines(Join(Literals(Lines(content)))) == Literals(Lines(content))
    ensures ReadLiterals(Literals(Lines(content))) == Some(Terminated(content))
  {
    var ls := Lines(content);
    var ms := Literals(ls);
    forall i | 0 <= i < |ms| ensures '\n' !in ms[i] {
      LiteralReadsBack(ls[i]);
    }
    LinesJoin(ms);
    LiteralsReadBack(ls);
    JoinLines(content);
  }

  // ---------------------------------------------------------------------
  // The program
  // ---------------------------------------------------------------------

  /** write_file of embed_text.cc:6-49. The file system is a parameter:
      `file` is the text of the input file, None when it cannot be opened;
      nothing is printed then. */
  method WriteFile(inputFile: string, symbol: string, file: Option<string>) returns (ok: bool, out: string)
    ensures ok <==> file.Some?
    ensures !ok ==> out == []
    ensures ok ==> out == Generated(inputFile, symbol, file.value)
  {
    if file.None? {
      return false, [];
    }
    var ls := Lines(file.value);
    var body := [];
    var i := 0;
    while i < |ls|
      invariant 0 <= i <= |ls|
      invariant body == Join(Literals(ls[..i]))
    {
      EmitStep(ls, i);
      body := body + Literal(ls[i]) + "\n";
      i := i + 1;
    }
    assert ls[..i] == ls;
    return true, Preamble(inputFile, symbol) + body + Footer;
  }

  /** One turn of the getline loop appends the next line's literal. */
  lemma EmitStep(ls: seq<string>, i: int)
    requires 0 <= i < |ls|
    ensures Join(Literals(ls[..i + 1])) == Join(Literals(ls[..i])) + Literal(ls[i]) + "\n"
  {
    assert ls[..i + 1] == ls[..i] + [ls[i]];
    LiteralsSnoc(ls[..i], ls[i]);
    JoinSnoc(Literals(ls[..i]), Literal(ls[i]));
  }

  lemma {:induction false} JoinSnoc(ls: seq<string>, l: string)
    ensures Join(ls + [l]) == Join(ls) + l + "\n"
    decreases |ls|
  {
    if |ls| > 0 {
      assert (ls + [l])[1..] == ls[1..] + [l];
      JoinSnoc(ls[1..], l);
    }
  }

  lemma LiteralsSnoc(ls: seq<string>, l: string)
    ensures Literals(ls + [l]) == Literals(ls) + [Literal(l)]
  {
  }

  /** The outcome of one run: exit status, standard output, standard
      error. */
  datatype Outcome = Outcome(status: int, out: string, err: string)

  /** main of embed_text.cc:52-71: fewer than two arguments print the usage
      and exit 2; an unreadable input file prints an error and exits 1;
      otherwise the header goes to standard output and the exit status is
      0. `files` maps a path to its text, None when it cannot be opened. */
  method Run(argv: seq<string>, files: string -> Option<string>) returns (r: Outcome)
    requires |argv| >= 1
    ensures |argv| < 3 ==> r == Outcome(2, [], "Syntax: " + argv[0] + " <inputfile> <symbolname>\n")
    ensures |argv| >= 3 && files(argv[1]).None? ==>
      r == Outcome(1, [], "Error opening or reading file: '" + argv[1] + "'\n")
    ensures |argv| >= 3 && files(argv[1]).Some? ==>
      r == Outcome(0, Generated(argv[1], argv[2], files(argv[1]).value), [])
  {
    if |argv| < 3 {
      return Outcome(2, [], "Syntax: " + argv[0] + " <inputfile> <symbolname>\n");
    }
    var argn := 1;
    var ok, out := WriteFile(argv[argn], argv[argn + 1], files(argv[argn]));
    if !ok {
      return Outcome(1, out, "Error opening or reading file: '" + argv[argn] + "'\n");
    }
    return Outcome(0, out, []);
  }
}
