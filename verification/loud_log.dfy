/** Parsing of the profiler lines that the LOUD mod of Supreme Commander:
    Forged Alliance writes into its log: each `info: prof: ` line is one
    sampled call stack, frames separated by `;`, the last field being
    `count,duration`. */
module LoudLog {
  import opened Results
  import opened PyStr

  /** One frame of a sampled call stack: the file, the line where the
      function is defined, its (possibly empty) name, and the line of the
      caller's frame from which the next frame was called. */
  datatype Func = Func(source: string, lineno: int, name: string, returnLine: int)

  /** A sampled call stack, outermost frame first. */
  datatype CallStack = CallStack(funcs: seq<Func>, count: int, totalDuration: real)

  /** The separator and installation prefix inferred from the whole log. */
  datatype Config = Config(sep: char, prefix: string)

  datatype Error =
      /** The log names no `siminit.lua`: not a profiler log (a `ValueError`). */
    | NoInstallationPath
      /** A profiler line without any `;` (a `ValueError` naming the line). */
    | InvalidProfilerResult(line: string)
      /** `int()` rejected a field (a `ValueError`). */
    | NotAnInteger(text: string)
      /** The duration parser rejected a field (a `ValueError`). */
    | NotANumber(text: string)
      /** A `,`-separated field at this index is missing: an uncaught
          `IndexError` in the source, not an error path it was designed with. */
    | MissingField(text: string, index: nat)

  /** The source the profiler gives native (C) functions. */
  const NativeSource: string := "=[C]"

  /** The start of every log line that carries a call stack. */
  const ProfMarker: string := "info: prof: "

  /** The file every installation has, written with either separator. */
  const BackslashSentinel: string := "\\gamedata\\lua\\lua\\siminit.lua"
  const SlashSentinel: string := "/gamedata/lua/lua/siminit.lua"

  /** How far back from the sentinel the separator, and from the separator
      the `@` marker, are looked for. */
  const SeparatorLookback: int := 100
  const MarkerLookback: int := 1000

  function Max(a: int, b: int): int { if a < b then b else a }

  // ---------------------------------------------------------------------
  // Frame display identity
  // ---------------------------------------------------------------------

  /** `Func.identifier(include_current_line)`: how a frame is displayed and
      keyed in the call tree. */
  function Identifier(f: Func, includeCurrentLine: bool): string {
    if f.source == NativeSource then f.name
    else
      f.source + ":" + IntToStr(f.lineno)
      + (if f.name != "" then "(" + f.name + ")" else "")
      + (if includeCurrentLine then "->" + IntToStr(f.returnLine) else "")
  }

  /** A native frame is shown by its name alone, with or without the return
      line requested, so native call-site keys carry no return line. */
  lemma NativeIdentifierIsName(f: Func, includeCurrentLine: bool)
    requires f.source == NativeSource
    ensures Identifier(f, includeCurrentLine) == f.name
  {
  }

  /** The call-site key of a frame is its callee key, followed for a
      non-native frame by `->` and the return line. */
  lemma CallSiteKeyExtendsCalleeKey(f: Func)
    ensures Identifier(f, true) ==
      Identifier(f, false) + (if f.source == NativeSource then "" else "->" + IntToStr(f.returnLine))
  {
  }

  /** A non-native frame's callee key is `source:lineno`, then `(name)` only
      when the name is not empty. */
  lemma LocatedIdentifier(f: Func)
    requires f.source != NativeSource
    ensures f.name == "" ==> Identifier(f, false) == f.source + ":" + IntToStr(f.lineno)
    ensures f.name != "" ==> Identifier(f, false) == f.source + ":" + IntToStr(f.lineno) + "(" + f.name + ")"
  {
  }

  /** The callee key ignores the return line. */
  lemma CalleeKeyIgnoresReturnLine(f: Func, g: Func)
    requires f.source == g.source && f.lineno == g.lineno && f.name == g.name
    ensures Identifier(f, false) == Identifier(g, false)
  {
  }

  // ---------------------------------------------------------------------
  // Frame parser
  // ---------------------------------------------------------------------

  /** `parts[0].replace(prefix, "").replace(sep, "/")` */
  function NormaliseSource(cfg: Config, raw: string): (r: string)
    ensures cfg.sep != '/' ==> cfg.sep !in r
  {
    var stripped := Replace(raw, cfg.prefix, "");
    ReplaceCharPointwise(stripped, cfg.sep, '/');
    Replace(stripped, [cfg.sep], "/")
  }

  /** `_parse_func`: a frame is `source,lineno,name,return_line`; fields past
      the fourth are ignored. */
  function ParseFunc(cfg: Config, text: string): Result<Func, Error> {
    var parts := Split(text, ',');
    var source := NormaliseSource(cfg, parts[0]);
    if |parts| < 2 then Failure(MissingField(text, 1))
    else
      match ParseInt(parts[1])
      case None => Failure(NotAnInteger(parts[1]))
      case Some(lineno) =>
        if |parts| < 4 then Failure(MissingField(text, |parts|))
        else
          match ParseInt(parts[3])
          case None => Failure(NotAnInteger(parts[3]))
          case Some(returnLine) => Success(Func(source, lineno, parts[2], returnLine))
  }

  /** A frame parses exactly when it has four fields whose second and
      fourth are integers; the frame then holds the normalised source, the
      two integers and the name. Otherwise the error is the `int()` failure
      or the missing field. */
  lemma ParseFuncSpec(cfg: Config, text: string)
    ensures var r := ParseFunc(cfg, text);
      r.Failure? ==> r.error.NotAnInteger? || r.error.MissingField?
    ensures var parts := Split(text, ',');
      ParseFunc(cfg, text).Success? <==> |parts| >= 4 && ParseInt(parts[1]).Some? && ParseInt(parts[3]).Some?
    ensures var parts := Split(text, ',');
      var r := ParseFunc(cfg, text);
      r.Success? ==>
        && r.value.source == NormaliseSource(cfg, parts[0])
        && Some(r.value.lineno) == ParseInt(parts[1])
        && r.value.name == parts[2]
        && Some(r.value.returnLine) == ParseInt(parts[3])
    ensures var r := ParseFunc(cfg, text);
      r.Success? && cfg.sep == '\\' ==> '\\' !in r.value.source
  {
  }

  /** `_parse_func` with the configuration fixed, as the list comprehension applies it. */
  function FrameParser(cfg: Config): string -> Result<Func, Error> {
    (t: string) => ParseFunc(cfg, t)
  }

  /** A frame list fails only with a frame's own error. */
  lemma FrameFailure(cfg: Config, frames: seq<string>)
    requires Traverse(FrameParser(cfg), frames).Failure?
    ensures var e := Traverse(FrameParser(cfg), frames).error;
      e.NotAnInteger? || e.MissingField?
  {
    var k := TraverseFirstFailure(FrameParser(cfg), frames);
    assert FrameParser(cfg)(frames[k]) == ParseFunc(cfg, frames[k]);
    ParseFuncSpec(cfg, frames[k]);
  }

  /** A successful frame list holds each frame's parse, in order. */
  lemma FrameValues(cfg: Config, frames: seq<string>)
    requires Traverse(FrameParser(cfg), frames).Success?
    ensures var funcs := Traverse(FrameParser(cfg), frames).value;
      && |funcs| == |frames|
      && forall k :: 0 <= k < |frames| ==> ParseFunc(cfg, frames[k]) == Success(funcs[k])
  {
    TraverseValues(FrameParser(cfg), frames);
  }

  /** `_parse_stacktrace`: every `;`-field but the last is a frame, parsed
      left to right; the last is `count,duration`. The duration is parsed by
      `parseDuration`, which stands for Python's `float()`.
      A parsed call stack has one
      frame per `;`-field but the last, each parsed by `ParseFunc`, and its
      count and duration are the first two `,`-fields of the last `;`-field. */
  function ParseStacktrace(cfg: Config, line: string, parseDuration: string -> Option<real>): (r: Result<CallStack, Error>)
    ensures r == Failure(InvalidProfilerResult(line)) <==> ';' !in line
    ensures var parts := Split(line, ';');
      var metrics := Split(parts[|parts| - 1], ',');
      r.Success? ==>
        && |r.value.funcs| == |parts| - 1 >= 1
        && (forall k :: 0 <= k < |parts| - 1 ==> ParseFunc(cfg, parts[k]) == Success(r.value.funcs[k]))
        && |metrics| >= 2
        && ParseInt(metrics[0]) == Some(r.value.count)
        && parseDuration(metrics[1]) == Some(r.value.totalDuration)
  {
    var parts := Split(line, ';');
    if |parts| < 2 then Failure(InvalidProfilerResult(line))
    else
      var frames := parts[..|parts| - 1];
      assert forall k :: 0 <= k < |frames| ==> frames[k] == parts[k];
      match Traverse(FrameParser(cfg), frames)
      case Failure(e) => FrameFailure(cfg, frames); Failure(e)
      case Success(funcs) =>
        FrameValues(cfg, frames);
        var metrics := Split(parts[|parts| - 1], ',');
        match ParseInt(metrics[0])
        case None => Failure(NotAnInteger(metrics[0]))
        case Some(count) =>
          if |metrics| < 2 then Failure(MissingField(parts[|parts| - 1], 1))
          else
            match parseDuration(metrics[1])
            case None => Failure(NotANumber(metrics[1]))
            case Some(duration) => Success(CallStack(funcs, count, duration))
  }

  /** A stack line parses exactly when it has a `;`, every frame parses, and
      its metrics hold a valid count and duration. */
  lemma ParseStacktraceSucceeds(cfg: Config, line: string, parseDuration: string -> Option<real>)
    ensures var parts := Split(line, ';');
      var metrics := Split(parts[|parts| - 1], ',');
      ParseStacktrace(cfg, line, parseDuration).Success? <==>
        && |parts| >= 2
        && (forall k :: 0 <= k < |parts| - 1 ==> ParseFunc(cfg, parts[k]).Success?)
        && ParseInt(metrics[0]).Some?
        && |metrics| >= 2
        && parseDuration(metrics[1]).Some?
  {
    var parts := Split(line, ';');
    if |parts| >= 2 && forall k :: 0 <= k < |parts| - 1 ==> ParseFunc(cfg, parts[k]).Success? {
      var frames := parts[..|parts| - 1];
      assert forall k :: 0 <= k < |frames| ==> FrameParser(cfg)(frames[k]) == ParseFunc(cfg, parts[k]);
      TraverseSucceeds(FrameParser(cfg), frames);
    }
  }

  // ---------------------------------------------------------------------
  // Rendering, the inverse of parsing for plain frames
  // ---------------------------------------------------------------------

  /** How the profiler writes a frame. */
  function RenderFunc(f: Func): string {
    f.source + "," + IntToStr(f.lineno) + "," + f.name + "," + IntToStr(f.returnLine)
  }

  /** A frame whose text survives parsing unchanged: no field separators in
      its source or name, and a source already free of the installation
      prefix and of the inferred separator. */
  ghost predicate PlainFunc(cfg: Config, f: Func) {
    && ',' !in f.source && ';' !in f.source
    && ',' !in f.name && ';' !in f.name
    && (cfg.sep == '/' || cfg.sep !in f.source)
    && (cfg.prefix == "" || forall i :: !OccursAt(f.source, cfg.prefix, i))
  }

  lemma NormalisePlainSource(cfg: Config, source: string)
    requires cfg.sep == '/' || cfg.sep !in source
    requires cfg.prefix == "" || forall i :: !OccursAt(source, cfg.prefix, i)
    ensures NormaliseSource(cfg, source) == source
  {
    if cfg.prefix == "" {
      ReplaceEmptyByEmpty(source);
    } else {
      ReplaceAbsent(source, cfg.prefix, "");
    }
    ReplaceCharPointwise(source, cfg.sep, '/');
  }

  /** A source that starts with the installation prefix, and holds it
      nowhere else, loses it, and the separators of the rest become `/`. */
  lemma StripsLeadingPrefix(sep: char, prefix: string, rest: string)
    requires prefix != [] && forall i :: !OccursAt(rest, prefix, i)
    ensures NormaliseSource(Config(sep, prefix), prefix + rest) == Replace(rest, [sep], "/")
    ensures var r := NormaliseSource(Config(sep, prefix), prefix + rest);
      |r| == |rest| && forall i :: 0 <= i < |rest| ==> r[i] == (if rest[i] == sep then '/' else rest[i])
  {
    ReplaceLeading(prefix, rest, "");
    ReplaceAbsent(rest, prefix, "");
    ReplaceCharPointwise(rest, sep, '/');
    var r := NormaliseSource(Config(sep, prefix), prefix + rest);
    assert Replace(prefix + rest, prefix, "") == rest;
    assert r == Replace(rest, [sep], "/");
  }

  /** Parsing a rendered plain frame gives the frame back. */
  lemma ParseFuncOfRenderFunc(cfg: Config, f: Func)
    requires PlainFunc(cfg, f)
    ensures ParseFunc(cfg, RenderFunc(f)) == Success(f)
  {
    var pieces := [f.source, IntToStr(f.lineno), f.name, IntToStr(f.returnLine)];
    IntToStrIsPlain(f.lineno, ',');
    IntToStrIsPlain(f.returnLine, ',');
    assert Join(pieces, ',') == RenderFunc(f) by {
      var p3 := [IntToStr(f.returnLine)];
      var p2 := [f.name] + p3;
      var p1 := [IntToStr(f.lineno)] + p2;
      assert pieces == [f.source] + p1;
      assert p1[1..] == p2 && p2[1..] == p3 && pieces[1..] == p1;
      assert Join(p3, ',') == IntToStr(f.returnLine);
      assert Join(p2, ',') == f.name + "," + IntToStr(f.returnLine);
      assert Join(p1, ',') == IntToStr(f.lineno) + "," + f.name + "," + IntToStr(f.returnLine);
    }
    SplitIsUnique(pieces, RenderFunc(f), ',');
    ParseIntOfIntToStr(f.lineno);
    ParseIntOfIntToStr(f.returnLine);
    NormalisePlainSource(cfg, f.source);
  }

  /** How the profiler writes a call stack, given how it writes a duration. */
  function RenderStack(s: CallStack, renderDuration: real -> string): string
    requires |s.funcs| >= 1
  {
    Join(RenderedFields(s, renderDuration), ';')
  }

  function RenderedFields(s: CallStack, renderDuration: real -> string): (fields: seq<string>)
    ensures |fields| == |s.funcs| + 1
  {
    seq(|s.funcs|, k requires 0 <= k < |s.funcs| => RenderFunc(s.funcs[k]))
      + [IntToStr(s.count) + "," + renderDuration(s.totalDuration)]
  }

  /** The fields of a rendered call stack are what splitting it on `;` gives. */
  lemma SplitRenderStack(s: CallStack, renderDuration: real -> string)
    requires |s.funcs| >= 1
    requires forall k :: 0 <= k < |s.funcs| ==> ';' !in s.funcs[k].source && ';' !in s.funcs[k].name
    requires ';' !in renderDuration(s.totalDuration)
    ensures Split(RenderStack(s, renderDuration), ';') == RenderedFields(s, renderDuration)
    ensures ';' in RenderStack(s, renderDuration)
  {
    var fields := RenderedFields(s, renderDuration);
    IntToStrIsPlain(s.count, ';');
    forall k | 0 <= k < |fields| ensures ';' !in fields[k] {
      if k < |s.funcs| {
        var f := s.funcs[k];
        IntToStrIsPlain(f.lineno, ';');
        IntToStrIsPlain(f.returnLine, ';');
        assert fields[k] == RenderFunc(f);
      }
    }
    SplitIsUnique(fields, RenderStack(s, renderDuration), ';');
    JoinHasSeparator(fields, ';');
  }

  /** The rendered frames parse back to the frames. */
  lemma ParseRenderedFrames(cfg: Config, s: CallStack, renderDuration: real -> string)
    requires |s.funcs| >= 1
    requires forall k :: 0 <= k < |s.funcs| ==> PlainFunc(cfg, s.funcs[k])
    ensures var fields := RenderedFields(s, renderDuration);
      Traverse(FrameParser(cfg), fields[..|fields| - 1]) == Success(s.funcs)
  {
    var fields := RenderedFields(s, renderDuration);
    var frames := fields[..|fields| - 1];
    var parse := FrameParser(cfg);
    forall k | 0 <= k < |frames| ensures parse(frames[k]) == Success(s.funcs[k]) {
      assert frames[k] == RenderFunc(s.funcs[k]);
      ParseFuncOfRenderFunc(cfg, s.funcs[k]);
    }
    var funcs := Traverse(parse, frames);
    TraverseSucceeds(parse, frames);
    TraverseValues(parse, frames);
    assert funcs.value == s.funcs;
  }

  /** Parsing a rendered call stack of plain frames gives the stack back,
      provided the duration survives its own round trip. */
  lemma ParseStacktraceOfRenderStack(cfg: Config, s: CallStack,
                                     renderDuration: real -> string, parseDuration: string -> Option<real>)
    requires |s.funcs| >= 1
    requires forall k :: 0 <= k < |s.funcs| ==> PlainFunc(cfg, s.funcs[k])
    requires parseDuration(renderDuration(s.totalDuration)) == Some(s.totalDuration)
    requires ',' !in renderDuration(s.totalDuration) && ';' !in renderDuration(s.totalDuration)
    ensures ParseStacktrace(cfg, RenderStack(s, renderDuration), parseDuration) == Success(s)
  {
    var fields := RenderedFields(s, renderDuration);
    var d := renderDuration(s.totalDuration);
    var metrics := IntToStr(s.count) + "," + d;
    assert fields[|fields| - 1] == metrics;
    SplitRenderStack(s, renderDuration);
    ParseRenderedFrames(cfg, s, renderDuration);
    IntToStrIsPlain(s.count, ',');
    assert Join([IntToStr(s.count), d], ',') == metrics;
    SplitIsUnique([IntToStr(s.count), d], metrics, ',');
    ParseIntOfIntToStr(s.count);
    assert fields[..|fields| - 1] == Split(RenderStack(s, renderDuration), ';')[..|fields| - 1];
  }

  // ---------------------------------------------------------------------
  // The line filter of `parse`
  // ---------------------------------------------------------------------

  predicate IsProfLine(line: string) {
    StartsWith(line, ProfMarker)
  }

  /** `line.removeprefix("info: prof: ").rstrip()`: the text after the
      marker up to the trailing whitespace, which it drops. */
  function CleanLine(line: string): (r: string)
    requires IsProfLine(line)
    ensures |ProfMarker| + |r| <= |line|
    ensures r == line[|ProfMarker|..|ProfMarker| + |r|]
    ensures forall i :: |ProfMarker| + |r| <= i < |line| ==> IsSpace(line[i])
    ensures r == [] || !IsSpace(r[|r| - 1])
  {
    var body := RemovePrefix(line, ProfMarker);
    assert body == line[|ProfMarker|..];
    RStripSpec(body);
    RStrip(body)
  }

  /** The call-stack texts of the profiler lines, in input order. */
  function ProfLines(lines: seq<string>): seq<string>
    decreases |lines|
  {
    if lines == [] then []
    else
      var last := lines[|lines| - 1];
      ProfLines(lines[..|lines| - 1]) + (if IsProfLine(last) then [CleanLine(last)] else [])
  }

  /** The filter keeps input order: it distributes over concatenation, and
      one line contributes its cleaned text exactly when it is a profiler
      line. */
  lemma {:induction false} ProfLinesAppend(a: seq<string>, b: seq<string>)
    ensures ProfLines(a + b) == ProfLines(a) + ProfLines(b)
    decreases |b|
  {
    if b == [] {
      assert a + b == a;
    } else {
      var ab := a + b;
      assert ab[..|ab| - 1] == a + b[..|b| - 1];
      ProfLinesAppend(a, b[..|b| - 1]);
    }
  }

  lemma ProfLinesOfOne(line: string)
    ensures ProfLines([line]) == if IsProfLine(line) then [CleanLine(line)] else []
  {
    assert [line][..0] == [];
  }

  /** `_parse_stacktrace` with the configuration and duration parser fixed. */
  function LineParser(cfg: Config, parseDuration: string -> Option<real>): string -> Result<CallStack, Error> {
    (l: string) => ParseStacktrace(cfg, l, parseDuration)
  }

  /** Parses the call-stack texts in order, stopping at the first error. */
  function ParseLines(cfg: Config, texts: seq<string>, parseDuration: string -> Option<real>): Result<seq<CallStack>, Error> {
    Traverse(LineParser(cfg, parseDuration), texts)
  }

  /** Parsing one more text: the earlier failure stays, or the new text's
      failure ends it, or its call stack is appended. */
  lemma ParseLinesSnoc(cfg: Config, texts: seq<string>, text: string, parseDuration: string -> Option<real>)
    requires ParseLines(cfg, texts, parseDuration).Success?
    ensures var s := ParseStacktrace(cfg, text, parseDuration);
      ParseLines(cfg, texts + [text], parseDuration) ==
        if s.Failure? then Failure(s.error)
        else Success(ParseLines(cfg, texts, parseDuration).value + [s.value])
  {
    TraverseSnoc(LineParser(cfg, parseDuration), texts, text);
  }

  /** Every parsed call stack has at least one frame, so the aggregator can
      always start at frame 0. */
  lemma ParsedStacksHaveFrames(cfg: Config, texts: seq<string>, parseDuration: string -> Option<real>)
    requires ParseLines(cfg, texts, parseDuration).Success?
    ensures |ParseLines(cfg, texts, parseDuration).value| == |texts|
    ensures forall k :: 0 <= k < |texts| ==> |ParseLines(cfg, texts, parseDuration).value[k].funcs| >= 1
  {
    TraverseValues(LineParser(cfg, parseDuration), texts);
  }

  // ---------------------------------------------------------------------
  // The log reader
  // ---------------------------------------------------------------------

  /** The profiler lines among the first `i + 1` lines: those among the
      first `i`, and then the `i`-th one's text when it has the marker. */
  lemma ProfLinesStep(lines: seq<string>, i: nat)
    requires i < |lines|
    ensures ProfLines(lines[..i + 1]) ==
      ProfLines(lines[..i]) + (if IsProfLine(lines[i]) then [CleanLine(lines[i])] else [])
  {
    ProfLinesAppend(lines[..i], [lines[i]]);
    ProfLinesOfOne(lines[i]);
    assert lines[..i] + [lines[i]] == lines[..i + 1];
  }

  /** Once a profiler line fails to parse, the lines after it are never
      looked at. */
  lemma ParseLinesStopsAtFailure(cfg: Config, lines: seq<string>, i: nat, parseDuration: string -> Option<real>)
    requires i <= |lines|
    requires ParseLines(cfg, ProfLines(lines[..i]), parseDuration).Failure?
    ensures ParseLines(cfg, ProfLines(lines), parseDuration) == ParseLines(cfg, ProfLines(lines[..i]), parseDuration)
  {
    ProfLinesAppend(lines[..i], lines[i..]);
    assert lines[..i] + lines[i..] == lines;
    TraverseFailureAbsorbs(LineParser(cfg, parseDuration), ProfLines(lines[..i]), ProfLines(lines[i..]));
  }

  /** A line without the marker leaves the parsed prefix as it was. */
  lemma ParseLinesSkip(cfg: Config, lines: seq<string>, i: nat, parseDuration: string -> Option<real>)
    requires i < |lines| && !IsProfLine(lines[i])
    ensures ParseLines(cfg, ProfLines(lines[..i + 1]), parseDuration) == ParseLines(cfg, ProfLines(lines[..i]), parseDuration)
  {
    ProfLinesStep(lines, i);
    assert ProfLines(lines[..i]) + [] == ProfLines(lines[..i]);
  }

  /** A profiler line that parses appends its call stack. */
  lemma ParseLinesAppend(cfg: Config, lines: seq<string>, i: nat, parseDuration: string -> Option<real>,
                         callStacks: seq<CallStack>, stack: CallStack)
    requires i < |lines| && IsProfLine(lines[i])
    requires ParseLines(cfg, ProfLines(lines[..i]), parseDuration) == Success(callStacks)
    requires ParseStacktrace(cfg, CleanLine(lines[i]), parseDuration) == Success(stack)
    ensures ParseLines(cfg, ProfLines(lines[..i + 1]), parseDuration) == Success(callStacks + [stack])
  {
    ProfLinesStep(lines, i);
    ParseLinesSnoc(cfg, ProfLines(lines[..i]), CleanLine(lines[i]), parseDuration);
  }

  /** A profiler line that fails to parse ends the parsed prefix with its
      error. */
  lemma ParseLinesFail(cfg: Config, lines: seq<string>, i: nat, parseDuration: string -> Option<real>,
                       e: Error)
    requires i < |lines| && IsProfLine(lines[i])
    requires ParseLines(cfg, ProfLines(lines[..i]), parseDuration).Success?
    requires ParseStacktrace(cfg, CleanLine(lines[i]), parseDuration) == Failure(e)
    ensures ParseLines(cfg, ProfLines(lines[..i + 1]), parseDuration) == Failure(e)
  {
    ProfLinesStep(lines, i);
    ParseLinesSnoc(cfg, ProfLines(lines[..i]), CleanLine(lines[i]), parseDuration);
  }

  /** The loop of `parse`: every line that starts with the profiler marker
      is cleaned and parsed, in input order, into the growing list of call
      stacks; the first line that fails to parse aborts with its error. */
  method ParseProfilerLines(cfg: Config, lines: seq<string>, parseDuration: string -> Option<real>)
    returns (r: Result<seq<CallStack>, Error>)
    ensures r == ParseLines(cfg, ProfLines(lines), parseDuration)
  {
    var callStacks: seq<CallStack> := [];
    var i := 0;
    assert lines[..0] == [];
    while i < |lines|
      invariant 0 <= i <= |lines|
      invariant ParseLines(cfg, ProfLines(lines[..i]), parseDuration) == Success(callStacks)
    {
      var line := lines[i];
      if IsProfLine(line) {
        var stack := ParseStacktrace(cfg, CleanLine(line), parseDuration);
        if stack.Failure? {
          ParseLinesFail(cfg, lines, i, parseDuration, stack.error);
          ParseLinesStopsAtFailure(cfg, lines, i + 1, parseDuration);
          r := Failure(stack.error);
          return;
        }
        ParseLinesAppend(cfg, lines, i, parseDuration, callStacks, stack.value);
        callStacks := callStacks + [stack.value];
      } else {
        ParseLinesSkip(cfg, lines, i, parseDuration);
      }
      i := i + 1;
    }
    assert lines[..i] == lines;
    r := Success(callStacks);
  }

  /** The lines joined back together. */
  function Concat(lines: seq<string>): string
    decreases |lines|
  {
    if lines == [] then "" else Concat(lines[..|lines| - 1]) + lines[|lines| - 1]
  }

  /** `lines` is what `for line in f` gives for a file whose `f.read()` is
      `data`: non-empty lines, each holding a line feed only at its end and
      all but the last ending with one, that make up the text. */
  ghost predicate LinesOf(data: string, lines: seq<string>) {
    && Concat(lines) == data
    && (forall k :: 0 <= k < |lines| ==> lines[k] != [])
    && (forall k, m :: 0 <= k < |lines| && 0 <= m < |lines[k]| - 1 ==> lines[k][m] != '\n')
    && (forall k :: 0 <= k < |lines| - 1 ==> lines[k][|lines[k]| - 1] == '\n')
  }

  /** Where the sentinel that fixed the separator starts (-1 when none). */
  function SentinelIndex(data: string): int {
    var i := Find(data, BackslashSentinel);
    if i != -1 then i else Find(data, SlashSentinel)
  }

  /** `_LoudLog`: the separator and prefix are inferred once per log and then
      used for every frame. Opening and reading the file is not modelled:
      `Parse` takes the whole text and its lines. */
  class LoudLog {
    var sep: Option<char>
    var prefix: Option<string>

    constructor ()
      ensures sep == None && prefix == None
    {
      sep := None;
      prefix := None;
    }

    /** What `_find_shared_path` establishes, given the fields it started from.
        When no sentinel occurs but a separator is kept from an earlier call,
        `i` is -1 and the separator is looked for in `data[0:-1]`, as
        Python's bound clipping gives. */
    ghost predicate Inferred(data: string, sepBefore: Option<char>, prefixBefore: Option<string>)
      reads this
    {
      && (Contains(data, BackslashSentinel) ==> sep == Some('\\'))
      && (!Contains(data, BackslashSentinel) && Contains(data, SlashSentinel) ==> sep == Some('/'))
      && (!Contains(data, BackslashSentinel) && !Contains(data, SlashSentinel) ==> sep == sepBefore)
      && (sep.None? ==> prefix == prefixBefore)
      && (sep.Some? ==> prefix.Some?)
      && (sep.Some? ==>
            var i := SentinelIndex(data);
            forall p, a ::
              IsLastIn(data, sep.value, Max(i - SeparatorLookback, 0), ClipIndex(i, |data|), p) &&
              IsLastIn(data, '@', Max(p - MarkerLookback, 0), p, a)
              ==> prefix == Some(data[a..p]))
    }

    /** `_find_shared_path`: the separator is that of the first sentinel
        found, backslash first; the prefix runs from the last `@` before the
        last separator before the sentinel, up to that separator. */
    method FindSharedPath(data: string) returns (r: Result<(), Error>)
      modifies this
      ensures Inferred(data, old(sep), old(prefix))
      ensures r.Failure? <==> sep.None?
      ensures r.Failure? ==> r.error == NoInstallationPath
    {
      var at := Find(data, BackslashSentinel);
      if at != -1 {
        sep := Some('\\');
      } else {
        at := Find(data, SlashSentinel);
        if at != -1 {
          sep := Some('/');
        }
      }
      if sep.None? {
        return Failure(NoInstallationPath);
      }
      assert at == SentinelIndex(data);
      var parent := RFind(data, sep.value, Max(at - SeparatorLookback, 0), at);
      var source := RFind(data, '@', Max(parent - MarkerLookback, 0), parent);
      prefix := Some(Slice(data, source, parent));
      forall p, a |
        IsLastIn(data, sep.value, Max(at - SeparatorLookback, 0), ClipIndex(at, |data|), p) &&
        IsLastIn(data, '@', Max(p - MarkerLookback, 0), p, a)
        ensures prefix == Some(data[a..p])
      {
        RFindFindsLast(data, sep.value, Max(at - SeparatorLookback, 0), ClipIndex(at, |data|), p);
        assert RFind(data, sep.value, Max(at - SeparatorLookback, 0), at) ==
          RFind(data, sep.value, Max(at - SeparatorLookback, 0), ClipIndex(at, |data|));
        RFindFindsLast(data, '@', Max(p - MarkerLookback, 0), p, a);
      }
      return Success(());
    }

    /** `parse`: infer the separator and prefix from the whole log, then
        parse every profiler line in order; the first error aborts. */
    method Parse(data: string, lines: seq<string>, parseDuration: string -> Option<real>)
      returns (r: Result<seq<CallStack>, Error>)
      requires LinesOf(data, lines)
      modifies this
      ensures Inferred(data, old(sep), old(prefix))
      ensures sep.None? ==> r == Failure(NoInstallationPath)
      ensures sep.Some? ==> prefix.Some?
      ensures sep.Some? && prefix.Some? ==>
        r == ParseLines(Config(sep.value, prefix.value), ProfLines(lines), parseDuration)
    {
      var found := FindSharedPath(data);
      if found.Failure? {
        return Failure(found.error);
      }
      r := ParseProfilerLines(Config(sep.value, prefix.value), lines, parseDuration);
    }
  }
}
