/** The build tool embed_binary.cpp: a wrapper around Dear ImGui's
    binary_to_compressed_c that prints a header holding a binary file as C
    arrays and then declares one `embedded_binary` (or `compressed_binary`)
    constant naming those arrays. The converter itself is not part of this
    model: its printed arrays, or its failure, are a parameter. */
module EmbedBinary {
  import opened Wrappers

  /** The two switches of the command line. */
  datatype Options = Options(base85: bool, compress: bool)

  /** The defaults: no base85, compression on (embed_binary.cpp:51-52). */
  const Defaults: Options := Options(false, true)

  /** What the command line asks for: the usage text, an unknown switch, or
      a conversion whose input file is argv[argn] and symbol argv[argn + 1]. */
  datatype Command = Usage | Unknown(arg: string) | Convert(opts: Options, argn: int)

  /** The switch handling of embed_binary.cpp:44-62, as written: at most one
      switch, looked at only in argv[1]. */
  function ParseAsWritten(argv: seq<string>): Command {
    if |argv| < 3 then Usage
    else if |argv[1]| > 0 && argv[1][0] == '-' then
      if argv[1] == "-base85" then Convert(Defaults.(base85 := true), 2)
      else if argv[1] == "-nocompress" then Convert(Defaults.(compress := false), 2)
      else Unknown(argv[1])
    else Convert(Defaults, 1)
  }

  /** With a switch and only one more argument the as-written parser picks
      argv[3] as the symbol, one past the last argument: in C that is the
      terminating null pointer, which is then printed as the symbol name. */
  lemma AsWrittenSymbolPastEnd()
    ensures var argv := ["embed_binary", "-nocompress", "font.ttf"];
      && ParseAsWritten(argv) == Convert(Options(false, false), 2)
      && ParseAsWritten(argv).argn + 1 == |argv|
  {
  }

  /** The switch handling with the argument count checked again once a
      switch has been consumed: too few arguments left prints the usage. */
  function Parse(argv: seq<string>): (c: Command)
    ensures c.Convert? ==> 1 <= c.argn && c.argn + 1 < |argv|
    ensures c.Unknown? ==> |argv| >= 3 && c.arg == argv[1]
  {
    match ParseAsWritten(argv)
    case Convert(opts, argn) => if argn + 1 < |argv| then Convert(opts, argn) else Usage
    case other => other
  }

  /** The corrected parser differs from the as-written one exactly on the
      command lines where the latter reads past the last argument; a
      conversion always names an input file and a symbol among the
      arguments, after a switch exactly when argv[1] is one. */
  lemma ParseAgrees(argv: seq<string>)
    ensures ParseAsWritten(argv).Convert? && ParseAsWritten(argv).argn + 1 >= |argv| <==>
      Parse(argv) != ParseAsWritten(argv)
    ensures Parse(argv) != ParseAsWritten(argv) ==>
      |argv| == 3 && Parse(argv) == Usage && (argv[1] == "-base85" || argv[1] == "-nocompress")
    ensures Parse(argv).Convert? ==>
      (Parse(argv).argn == 2 <==> argv[1] == "-base85" || argv[1] == "-nocompress")
  {
  }

  // ---------------------------------------------------------------------
  // The printed header
  // ---------------------------------------------------------------------

  /** The lines printed before the converter runs (embed_binary.cpp:10-13). */
  const Preamble: string := "#pragma once\n" + "\n" + "#include \"embed/types.h\"\n" + "\n"

  function TypeName(compress: bool): string {
    if compress then "compressed_binary" else "embedded_binary"
  }

  function Infix(compress: bool): string {
    if compress then "compressed_" else ""
  }

  /** The declaration after the converter's arrays (embed_binary.cpp:18-33):
      for the plain encodings a constant named `symbol` of the binary type,
      built from the converter's `<symbol>_[compressed_]data` and
      `<symbol>_[compressed_]size`; for base85 a comment. The symbol's
      name stands right after the type name. */
  function Declaration(symbol: string, opts: Options): (d: string)
    ensures opts.base85 ==> d == "// base85 encoding currently not supported\n"
    ensures !opts.base85 ==>
      var head := "constexpr " + TypeName(opts.compress) + " ";
      && |d| == 3 * |symbol| + 2 * |TypeName(opts.compress)| + 2 * |Infix(opts.compress)| + 30
      && d[..|head|] == head
      && d[|head|..|head| + |symbol|] == symbol
  {
    if opts.base85 then "// base85 encoding currently not supported\n"
    else
      var t := TypeName(opts.compress);
      var p := Infix(opts.compress);
      var head := "constexpr " + t + " ";
      var tail := " = " + t + "{" + symbol + "_" + p + "data, " + symbol + "_" + p + "size};\n";
      assert |tail| == 2 * |symbol| + |t| + 2 * |p| + 19;
      Pieces(head, symbol, tail);
      head + symbol + tail
  }

  /** Where the parts of a three-part concatenation stand. */
  lemma Pieces(a: string, b: string, c: string)
    ensures |a + b + c| == |a| + |b| + |c|
    ensures (a + b + c)[..|a|] == a
    ensures (a + b + c)[|a|..|a| + |b|] == b
  {
  }

  /** Two different symbols never give the same declaration, and the two
      plain encodings give different ones. */
  lemma DeclarationInjective(s1: string, s2: string, opts: Options)
    requires !opts.base85
    ensures Declaration(s1, opts) == Declaration(s2, opts) <==> s1 == s2
    ensures Declaration(s1, opts) != Declaration(s1, opts.(compress := !opts.compress))
  {
    var d1, d2 := Declaration(s1, opts), Declaration(s2, opts);
    if d1 == d2 {
      var k := |"constexpr " + TypeName(opts.compress) + " "|;
      assert |s1| == |s2|;
      assert s1 == d1[k..k + |s1|] == d2[k..k + |s2|] == s2;
    }
    var other := Declaration(s1, opts.(compress := !opts.compress));
    assert |other| != |d1|;
  }

  /** custom_binary_to_compressed_c of embed_binary.cpp:6-37. `converted`
      is what the converter prints, None when it fails (it cannot open or
      read the file); the preamble is printed in either case. */
  function Emit(symbol: string, opts: Options, converted: Option<string>): (r: (bool, string))
    ensures r.0 <==> converted.Some?
    ensures !r.0 ==> r.1 == Preamble
    ensures r.0 ==> r.1 == Preamble + converted.value + Declaration(symbol, opts) + "\n"
    ensures |r.1| >= |Preamble| && r.1[..|Preamble|] == Preamble
  {
    match converted
    case None => (false, Preamble)
    case Some(arrays) =>
      var out := Preamble + arrays + Declaration(symbol, opts) + "\n";
      assert out == Preamble + (arrays + Declaration(symbol, opts) + "\n");
      (true, out)
  }

  /** The outcome of one run: exit status, standard output, standard
      error. */
  datatype Outcome = Outcome(status: int, out: string, err: string)

  /** main of embed_binary.cpp:42-68 over the corrected parser. `convert`
      stands for binary_to_compressed_c: given the input file, the symbol
      and the options, the arrays it prints, or None when it fails. The
      usage text goes to standard output with status 0; an unknown switch
      exits 1 before printing anything; otherwise the status is 0 exactly
      when the converter succeeds. */
  method Run(argv: seq<string>, convert: (string, string, Options) -> Option<string>) returns (r: Outcome)
    requires |argv| >= 1
    ensures Parse(argv) == Usage ==>
      r == Outcome(0, "Syntax: " + argv[0] + " [-base85] [-nocompress] <inputfile> <symbolname>\n", [])
    ensures Parse(argv).Unknown? ==> r == Outcome(1, [], "Unknown argument: '" + argv[1] + "'\n")
    ensures Parse(argv).Convert? ==>
      var c := Parse(argv);
      var converted := convert(argv[c.argn], argv[c.argn + 1], c.opts);
      && (r.status == 0 <==> converted.Some?)
      && r.out == Emit(argv[c.argn + 1], c.opts, converted).1
      && r.err == (if converted.Some? then [] else "Error opening or reading file: '" + argv[c.argn] + "'\n")
  {
    var command := Parse(argv);
    match command
    case Usage =>
      return Outcome(0, "Syntax: " + argv[0] + " [-base85] [-nocompress] <inputfile> <symbolname>\n", []);
    case Unknown(arg) =>
      return Outcome(1, [], "Unknown argument: '" + arg + "'\n");
    case Convert(opts, argn) =>
      var result := Emit(argv[argn + 1], opts, convert(argv[argn], argv[argn + 1], opts));
      var ret, out := result.0, result.1;
      if !ret {
        return Outcome(1, out, "Error opening or reading file: '" + argv[argn] + "'\n");
      }
      return Outcome(0, out, []);
  }
}
