/** Reading a configuration file: gwlib/cfg.c. Values and their quoting, continuation lines, and the include loop
    of cfg_read, which must process the depth-first splice of everything included. */
module Configuration {
  import opened Common

  // ---------------------------------------------------------------------------
  // Values
  // ---------------------------------------------------------------------------

  function StripLeft(s: string): (r: string)
    ensures |r| <= |s| && (r != "" ==> !IsBlank(r[0]))
  {
    if s != "" && IsBlank(s[0]) then StripLeft(s[1..]) else s
  }

  function StripRight(s: string): (r: string)
    ensures r <= s && (r != "" ==> !IsBlank(r[|r| - 1]))
  {
    if s != "" && IsBlank(s[|s| - 1]) then StripRight(s[..|s| - 1]) else s
  }

  /** octstr_strip_blanks. */
  function Strip(s: string): string { StripRight(StripLeft(s)) }

  /** Inside quotes a backslash protects a backslash or a quote, and stands for itself otherwise. */
  function Unescape(s: string): string {
    if s == "" then ""
    else if s[0] != '\\' || |s| == 1 then [s[0]] + Unescape(s[1..])
    else if s[1] == '\\' || s[1] == '"' then [s[1]] + Unescape(s[2..])
    else ['\\', s[1]] + Unescape(s[2..])
  }

  function Value(s: string): string {
    var t := Strip(s);
    if t == "" || t[0] != '"' || t[|t| - 1] != '"' then t
    else if |t| == 1 then ""
    else Unescape(t[1..|t| - 1])
  }

  /** parse_value. */
  method ParseValue(s: string) returns (value: string)
    ensures value == Value(s)
  {
    hide Strip;
    value := Strip(s);
    ghost var t := value;
    if value == "" || value[0] != '"' || value[|value| - 1] != '"' {
      return;
    }
    value := value[..|value| - 1];
    if value != "" {
      value := value[1..];
      assert value == t[1..|t| - 1];
    }
    value := UnescapeLoop(value);
  }

  /** What Unescape does first: the characters it emits and how many it takes. */
  function FirstOut(s: string): string
    requires s != ""
  {
    if s[0] != '\\' || |s| == 1 then [s[0]] else if s[1] == '\\' || s[1] == '"' then [s[1]] else ['\\', s[1]]
  }

  function Taken(s: string): (n: nat)
    requires s != ""
    ensures 1 <= n <= |s|
  {
    if s[0] != '\\' || |s| == 1 then 1 else 2
  }

  lemma UnescapeStep(value: string, s: string)
    requires s != ""
    ensures value + Unescape(s) == value + FirstOut(s) + Unescape(s[Taken(s)..])
  {
    assert Unescape(s) == FirstOut(s) + Unescape(s[Taken(s)..]);
  }

  method UnescapeLoop(s: string) returns (value: string)
    ensures value == Unescape(s)
  {
    hide Unescape;
    var temp := s;
    value := "";
    assert "" + Unescape(s) == Unescape(s);
    while |temp| > 0
      invariant Unescape(s) == value + Unescape(temp)
      decreases |temp|
    {
      UnescapeStep(value, temp);
      ghost var before, was := value, temp;
      var c := temp[0];
      temp := temp[1..];
      if c != '\\' || |temp| == 0 {
        value := value + [c];
      } else {
        c := temp[0];
        temp := temp[1..];
        if c == '\\' || c == '"' {
          value := value + [c];
        } else {
          value := value + ['\\'];
          value := value + [c];
        }
      }
      assert value == before + FirstOut(was) && temp == was[Taken(was)..];
    }
    UnescapeNothing(value, temp);
  }

  lemma UnescapeNothing(value: string, s: string)
    requires s == ""
    ensures value + Unescape(s) == value
  {
  }

  /** Writing a value: backslashes and quotes get a backslash. */
  function Escape(s: string): string {
    if s == "" then ""
    else (if s[0] == '\\' || s[0] == '"' then ['\\', s[0]] else [s[0]]) + Escape(s[1..])
  }

  function Quote(s: string): string { ['"'] + Escape(s) + ['"'] }

  lemma {:induction false} UnescapeEscape(s: string)
    ensures Unescape(Escape(s)) == s
  {
    if s != "" {
      UnescapeEscape(s[1..]);
      var e := Escape(s);
      var n := if s[0] == '\\' || s[0] == '"' then 2 else 1;
      assert e[n..] == Escape(s[1..]);
      assert s == [s[0]] + s[1..];
    }
  }

  lemma {:induction false} StripLeftSkips(b: string, s: string)
    requires forall i :: 0 <= i < |b| ==> IsBlank(b[i])
    requires s != "" && !IsBlank(s[0])
    ensures StripLeft(b + s) == s
  {
    if b == "" {
      assert b + s == s;
    } else {
      assert (b + s)[1..] == b[1..] + s;
      StripLeftSkips(b[1..], s);
    }
  }

  lemma {:induction false} StripRightSkips(b: string, s: string)
    requires forall i :: 0 <= i < |b| ==> IsBlank(b[i])
    requires s != "" && !IsBlank(s[|s| - 1])
    ensures StripRight(s + b) == s
    decreases |b|
  {
    if b == "" {
      assert s + b == s;
    } else {
      assert (s + b)[..|s + b| - 1] == s + b[..|b| - 1];
      StripRightSkips(b[..|b| - 1], s);
    }
  }

  /** Every string survives quoting and parsing, with any blanks around it. */
  lemma ValueQuote(before: string, s: string, after: string)
    requires forall i :: 0 <= i < |before| ==> IsBlank(before[i])
    requires forall i :: 0 <= i < |after| ==> IsBlank(after[i])
    ensures Value(before + Quote(s) + after) == s
  {
    var q := Quote(s);
    assert before + q + after == before + (q + after);
    StripLeftSkips(before, q + after);
    StripRightSkips(after, q);
    assert q[1..|q| - 1] == Escape(s);
    UnescapeEscape(s);
  }

  // ---------------------------------------------------------------------------
  // Files and continuation lines
  // ---------------------------------------------------------------------------

  datatype Loc = Loc(file: string, lineNo: int, line: string)

  /** A file is its physical lines; a directory lists its items in readdir order. */
  datatype Entry = File(lines: seq<string>) | Dir(items: seq<DirItem>)

  datatype DirItem = DirItem(name: string, isDir: bool)

  type FileSystem = map<string, Entry>

  predicate EndsInBackslash(s: string) { s != "" && s[|s| - 1] == '\\' }

  function Chop(s: string): string { if s == "" then "" else s[..|s| - 1] }

  /** One backslash at the end continues the line; two end it and leave one. */
  predicate Continues(s: string) { EndsInBackslash(s) && !EndsInBackslash(Chop(s)) }

  function Body(s: string): string { if EndsInBackslash(s) then Chop(s) else s }

  function Glue(p: string, rest: seq<string>): seq<string> {
    if rest == [] then [p] else [p + rest[0]] + rest[1..]
  }

  /** The logical lines. */
  function Join(lines: seq<string>): seq<string> {
    if lines == [] then []
    else if Continues(lines[0]) then Glue(Body(lines[0]), Join(lines[1..]))
    else [Body(lines[0])] + Join(lines[1..])
  }

  function Numbered(file: string, lines: seq<string>): (r: seq<Loc>)
    ensures |r| == |lines| && forall i :: 0 <= i < |r| ==> r[i] == Loc(file, i + 1, lines[i])
  {
    seq(|lines|, i requires 0 <= i < |lines| => Loc(file, i + 1, lines[i]))
  }

  /** The logical lines of a file, numbered as such, and a newline to end its last group. */
  function Locs(file: string, lines: seq<string>): (r: seq<Loc>)
    ensures forall i :: 0 <= i < |r| ==> r[i].file == file
  {
    var j := Join(lines);
    if j == [] then [] else Numbered(file, j) + [Loc(file, |j|, "\n")]
  }

  ghost function Rev<T>(s: seq<T>): (r: seq<T>)
    ensures |r| == |s| && forall i :: 0 <= i < |s| ==> r[i] == s[|s| - 1 - i]
  {
    seq(|s|, i requires 0 <= i < |s| => s[|s| - 1 - i])
  }

  /** Logical lines built so far, the last of them still open or not, and the physical lines to come. */
  ghost function Resume(acc: seq<string>, open: bool, rest: seq<string>): seq<string>
    requires open ==> acc != []
  {
    if open then acc[..|acc| - 1] + Glue(acc[|acc| - 1], Join(rest)) else acc + Join(rest)
  }

  /** What one physical line adds. */
  ghost function Absorb(acc: seq<string>, open: bool, line: string): seq<string>
    requires open ==> acc != []
  {
    if open then acc[|acc| - 1 := acc[|acc| - 1] + Body(line)] else acc + [Body(line)]
  }

  lemma GlueGlue(a: string, b: string, rest: seq<string>)
    ensures Glue(a, Glue(b, rest)) == Glue(a + b, rest)
  {
    if rest != [] {
      assert a + (b + rest[0]) == (a + b) + rest[0];
    }
  }

  lemma ResumeStep(acc: seq<string>, open: bool, rest: seq<string>)
    requires (open ==> acc != []) && rest != []
    ensures Resume(acc, open, rest) == Resume(Absorb(acc, open, rest[0]), Continues(rest[0]), rest[1..])
  {
    hide Continues, Body, Glue, Join;
    JoinIs(rest);
    if open {
      OpenStep(acc, Body(rest[0]), Join(rest[1..]));
    } else {
      ClosedStep(acc, Body(rest[0]), Join(rest[1..]));
    }
  }

  lemma JoinIs(rest: seq<string>)
    requires rest != []
    ensures Join(rest) ==
            if Continues(rest[0]) then Glue(Body(rest[0]), Join(rest[1..])) else [Body(rest[0])] + Join(rest[1..])
  {
  }

  lemma ClosedStep(acc: seq<string>, b: string, tail: seq<string>)
    ensures var next := acc + [b];
            && acc + Glue(b, tail) == next[..|next| - 1] + Glue(next[|next| - 1], tail)
            && acc + ([b] + tail) == next + tail
  {
    assert (acc + [b])[..|acc|] == acc;
  }

  lemma OpenStep(acc: seq<string>, b: string, tail: seq<string>)
    requires acc != []
    ensures var n := |acc| - 1;
            var next := acc[n := acc[n] + b];
            && acc[..n] + Glue(acc[n], Glue(b, tail)) == next[..n] + Glue(next[n], tail)
            && acc[..n] + Glue(acc[n], [b] + tail) == next + tail
  {
    hide Glue;
    var n := |acc| - 1;
    var next := acc[n := acc[n] + b];
    GlueGlue(acc[n], b, tail);
    assert next[..n] == acc[..n];
    GlueCons(acc[n], b, tail);
    assert next == acc[..n] + [next[n]];
    assert acc[..n] + ([next[n]] + tail) == acc[..n] + [next[n]] + tail;
  }

  lemma GlueCons(a: string, b: string, tail: seq<string>)
    ensures Glue(a, [b] + tail) == [a + b] + tail
  {
    assert ([b] + tail)[1..] == tail;
  }

  /** The list under construction shows these logical lines, in order or reversed. */
  ghost predicate Shows(expand: seq<Loc>, forward: bool, file: string, acc: seq<string>) {
    expand == if forward then Numbered(file, acc) else Rev(Numbered(file, acc))
  }

  method NewLoc(expand: seq<Loc>, forward: bool, loc: Loc) returns (r: seq<Loc>)
    ensures forall file, acc :: Shows(expand, forward, file, acc) && loc == Loc(file, |acc| + 1, "")
              ==> Shows(r, forward, file, acc + [""])
    ensures r == if forward then expand + [loc] else [loc] + expand
  {
    r := if forward then expand + [loc] else [loc] + expand;
  }

  method AppendToLoc(expand: seq<Loc>, forward: bool, text: string, ghost file: string, ghost acc: seq<string>)
      returns (r: seq<Loc>)
    requires acc != [] && Shows(expand, forward, file, acc)
    ensures Shows(r, forward, file, acc[|acc| - 1 := acc[|acc| - 1] + text])
  {
    var at := if forward then |expand| - 1 else 0;
    r := expand[at := expand[at].(line := expand[at].line + text)];
  }

  /** expand_file: forward in order, otherwise reversed. */
  method ExpandFile(file: string, lines: seq<string>, forward: bool) returns (expand: seq<Loc>)
    ensures expand == if forward then Locs(file, lines) else Rev(Locs(file, lines))
  {
    hide Join, Glue, Shows;
    expand := [];
    var lineno := 0;
    var open := false;
    ghost var acc: seq<string> := [];
    ShowsNothing(forward, file, lines);
    for i := 0 to |lines|
      invariant lineno == |acc| && (open ==> acc != [])
      invariant Join(lines) == Resume(acc, open, lines[i..])
      invariant Shows(expand, forward, file, acc)
    {
      ResumeStep(acc, open, lines[i..]);
      ghost var next := Absorb(acc, open, lines[i]);
      if !open {
        lineno := lineno + 1;
        expand := NewLoc(expand, forward, Loc(file, lineno, ""));
        acc := acc + [""];
      }
      var line := lines[i];
      open := false;
      if EndsInBackslash(line) {
        line := Chop(line);
        if !EndsInBackslash(line) {
          open := true;
        }
      }
      expand := AppendToLoc(expand, forward, line, file, acc);
      acc := acc[|acc| - 1 := acc[|acc| - 1] + line];
      assert line == Body(lines[i]) && "" + line == line;
      assert acc == next && lines[i..][1..] == lines[i + 1..];
    }
    ShowsAll(expand, forward, file, acc, lines, open);
    if lineno > 0 {
      var loc := Loc(file, lineno, "\n");
      expand := NewLoc(expand, forward, loc);
    }
  }

  lemma ShowsNothing(forward: bool, file: string, lines: seq<string>)
    ensures Shows([], forward, file, []) && Join(lines) == Resume([], false, lines)
  {
  }

  lemma ShowsAll(expand: seq<Loc>, forward: bool, file: string, acc: seq<string>, lines: seq<string>, open: bool)
    requires Shows(expand, forward, file, acc) && (open ==> acc != []) && Join(lines) == Resume(acc, open, [])
    ensures acc == [] ==> expand == [] && Locs(file, lines) == [] && Rev(Locs(file, lines)) == []
    ensures acc != [] ==> var last := Loc(file, |acc|, "\n");
                          && Locs(file, lines) == Numbered(file, acc) + [last]
                          && (if forward then expand + [last] == Locs(file, lines)
                              else [last] + expand == Rev(Locs(file, lines)))
  {
    hide Numbered;
    ResumeEnds(acc, open);
    if acc != [] {
      RevSnoc(Numbered(file, acc), Loc(file, |acc|, "\n"));
    }
  }

  lemma ResumeEnds(acc: seq<string>, open: bool)
    requires open ==> acc != []
    ensures Resume(acc, open, []) == acc
  {
  }

  lemma RevSnoc<T>(s: seq<T>, x: T)
    ensures Rev(s + [x]) == [x] + Rev(s)
  {
  }

  /** Breaking a line into pieces with a backslash after each but the last is undone, whatever the pieces, as long
      as none of them ends in a backslash itself. */
  lemma {:induction false} JoinUnsplit(pieces: seq<string>)
    requires pieces != [] && forall i :: 0 <= i < |pieces| ==> !EndsInBackslash(pieces[i])
    ensures Join(Broken(pieces)) == [Concat(pieces)]
  {
    if |pieces| > 1 {
      JoinUnsplit(pieces[1..]);
      assert Chop(pieces[0] + "\\") == pieces[0];
      assert Broken(pieces)[1..] == Broken(pieces[1..]);
    } else {
      assert Broken(pieces) == [pieces[0]];
      assert Concat(pieces[1..]) == "";
      assert pieces[0] + "" == pieces[0];
    }
  }

  function Broken(pieces: seq<string>): seq<string> {
    if |pieces| <= 1 then pieces else [pieces[0] + "\\"] + Broken(pieces[1..])
  }

  function Concat(pieces: seq<string>): string {
    if pieces == [] then "" else pieces[0] + Concat(pieces[1..])
  }

  // ---------------------------------------------------------------------------
  // Lines
  // ---------------------------------------------------------------------------

  datatype Kind = Blank | Comment | NoEquals | Include(name: string) | Setting(name: string, value: string)

  predicate Mentions(s: string, word: string) {
    word <= s || (s != "" && Mentions(s[1..], word))
  }

  /** How cfg_read takes a line. The word include anywhere in a line with an equals sign makes it a directive. */
  function KindOf(text: string): Kind {
    var s := Strip(text);
    if s == "" then Blank
    else if s[0] == '#' then Comment
    else
      var equals := Find(s, '=', 0);
      if equals == -1 then NoEquals
      else if Mentions(s, "include") then Include(Value(s[equals + 1..]))
      else Setting(Strip(s[..equals]), Value(s[equals + 1..]))
  }

  // ---------------------------------------------------------------------------
  // What the lines mean once spliced
  // ---------------------------------------------------------------------------

  type Group = map<string, string>

  /** The reader: groups finished, the group being read, the line of the first error (0 for none), and whether
      the program has panicked. */
  datatype Reader = Reader(groups: seq<Group>, grp: Option<Group>, error: int, panicked: bool)

  const FRESH := Reader([], None, 0, false)

  predicate Running(rd: Reader) { rd.error == 0 && !rd.panicked }

  /** An element of the splice: a line that is not an include, or an include that cannot be followed. */
  datatype Item = Line(loc: Loc) | Fail

  /** add_group, which refuses the groups in bad. */
  function AddGroup(rd: Reader, bad: Group -> bool, lineNo: int): Reader {
    if rd.grp.None? then rd
    else if bad(rd.grp.value) then rd.(grp := None, error := lineNo)
    else rd.(groups := rd.groups + [rd.grp.value], grp := None)
  }

  function FeedLine(rd: Reader, bad: Group -> bool, loc: Loc): Reader {
    match KindOf(loc.line)
    case Blank => AddGroup(rd, bad, loc.lineNo)
    case Comment => rd
    case NoEquals => rd.(error := loc.lineNo)
    case Include(_) => rd
    case Setting(name, value) =>
      rd.(grp := Some((if rd.grp.None? then map[] else rd.grp.value)[name := value]))
  }

  ghost function Parse(rd: Reader, bad: Group -> bool, items: seq<Item>): Reader
    decreases |items|
  {
    hide FeedLine;
    if items == [] || !Running(rd) then rd
    else Parse(match items[0] case Fail => rd.(panicked := true) case Line(loc) => FeedLine(rd, bad, loc),
               bad, items[1..])
  }

  // ---------------------------------------------------------------------------
  // The splice
  // ---------------------------------------------------------------------------

  /** The files an include names: itself, or the plain files of a directory in readdir order. */
  function Files(fs: FileSystem, name: string): seq<string> {
    if name in fs && fs[name].Dir? then Items(name, fs[name].items) else [name]
  }

  function Items(dir: string, items: seq<DirItem>): seq<string> {
    if items == [] then []
    else
      var n := |items| - 1;
      Items(dir, items[..n]) + (if items[n].isDir then [] else [dir + "/" + items[n].name])
  }

  predicate Readable(fs: FileSystem, files: seq<string>) {
    forall i :: 0 <= i < |files| ==> files[i] in fs && fs[files[i]].File?
  }

  /** The lines of several files, one after the other. */
  function Text(fs: FileSystem, files: seq<string>): seq<Loc>
    requires Readable(fs, files)
  {
    if files == [] then []
    else Locs(files[0], fs[files[0]].lines) + Text(fs, files[1..])
  }

  ghost function Names(stack: seq<string>): set<string> { set x | x in stack }

  /** Whether a file includes a directory, on some logical line. */
  ghost predicate IncludesDir(fs: FileSystem, line: string) {
    KindOf(line).Include? && KindOf(line).name in fs && fs[KindOf(line).name].Dir?
  }

  /** Directories are not entered on the stack, so following them ends only if they are nested in a well-founded
      way: a file of a directory ranks below the file that includes the directory. */
  ghost predicate Ranked(fs: FileSystem, rank: string -> nat) {
    forall l: Loc, f: string ::
      (&& IncludesDir(fs, l.line) && l.file in fs && fs[l.file].File?
       && l in Locs(l.file, fs[l.file].lines) && f in Files(fs, KindOf(l.line).name))
      ==> rank(f) < rank(l.file)
  }

  /** Every line on the list comes from a file. */
  ghost predicate FromFiles(fs: FileSystem, lines: seq<Loc>) {
    forall i :: 0 <= i < |lines| ==>
      lines[i].file in fs && fs[lines[i].file].File? && lines[i] in Locs(lines[i].file, fs[lines[i].file].lines)
  }

  ghost function MaxRank(rank: string -> nat, lines: seq<Loc>): (r: nat)
    ensures forall i :: 0 <= i < |lines| ==> rank(lines[i].file) <= r
    ensures lines == [] ==> r == 0
    ensures lines != [] ==> exists i :: 0 <= i < |lines| && r == rank(lines[i].file)
  {
    if lines == [] then 0
    else
      var r := MaxRank(rank, lines[1..]);
      assert forall i :: 1 <= i < |lines| ==> lines[i] == lines[1..][i - 1];
      if rank(lines[0].file) >= r then rank(lines[0].file) else r
  }

  lemma {:induction false} TextFromFiles(fs: FileSystem, files: seq<string>)
    requires Readable(fs, files)
    ensures FromFiles(fs, Text(fs, files))
    ensures forall i :: 0 <= i < |Text(fs, files)| ==> Text(fs, files)[i].file in files
  {
    if files != [] {
      assert forall i :: 1 <= i < |files| ==> files[i] == files[1..][i - 1];
      TextFromFiles(fs, files[1..]);
      var a := Locs(files[0], fs[files[0]].lines);
      var b := Text(fs, files[1..]);
      forall i | 0 <= i < |a + b|
        ensures (a + b)[i] == if i < |a| then a[i] else b[i - |a|]
      {
      }
    }
  }

  /** Result of splicing: the items in order, the names entered on the way, and how many lines were looked at. */
  datatype Spliced = Spliced(items: seq<Item>, stack: set<string>, steps: nat)

  /** Depth-first and in order: an include is replaced by the splice of what it names, then the rest follows. */
  ghost function Splice(fs: FileSystem, rank: string -> nat, stack: set<string>, lines: seq<Loc>): (r: Spliced)
    requires Ranked(fs, rank) && FromFiles(fs, lines)
    ensures stack <= r.stack
    decreases |fs.Keys - stack|, MaxRank(rank, lines), |lines|
  {
    hide KindOf, Ranked, FromFiles, Readable, Files, Text;
    if lines == [] then Spliced([], stack, 0)
    else
      Tail(fs, rank, lines);
      var rest := lines[1..];
      match KindOf(lines[0].line)
      case Include(name) =>
        var files := Files(fs, name);
        if name in stack || !Readable(fs, files) then
          var s := Splice(fs, rank, stack, rest);
          Spliced([Fail] + s.items, s.stack, s.steps + 1)
        else
          TextFromFiles(fs, files);
          Descends(fs, rank, stack, lines, name);
          var inner := Splice(fs, rank, stack + Names(files), Text(fs, files));
          Shrinks(fs.Keys, stack, inner.stack);
          var s := Splice(fs, rank, inner.stack, rest);
          Spliced(inner.items + s.items, s.stack, inner.steps + s.steps + 1)
      case _ =>
        var s := Splice(fs, rank, stack, rest);
        Spliced([Line(lines[0])] + s.items, s.stack, s.steps + 1)
  }

  lemma Tail(fs: FileSystem, rank: string -> nat, lines: seq<Loc>)
    requires FromFiles(fs, lines) && lines != []
    ensures FromFiles(fs, lines[1..]) && MaxRank(rank, lines[1..]) <= MaxRank(rank, lines)
  {
  }

  lemma Shrinks(all: set<string>, a: set<string>, b: set<string>)
    requires a <= b
    ensures |all - b| <= |all - a|
    ensures |all - b| == |all - a| ==> all - b == all - a
  {
    assert all - b <= all - a;
    Subset(all - b, all - a);
  }

  lemma Subset(x: set<string>, y: set<string>)
    requires x <= y
    ensures |x| <= |y| && (|x| == |y| ==> x == y)
  {
    assert y == x + (y - x);
  }

  /** Following an include goes down: a new file, or a directory of lower rank. */
  lemma Descends(fs: FileSystem, rank: string -> nat, stack: set<string>, lines: seq<Loc>, name: string)
    requires Ranked(fs, rank) && FromFiles(fs, lines) && lines != []
    requires KindOf(lines[0].line) == Include(name) && name !in stack && Readable(fs, Files(fs, name))
    ensures var t := Text(fs, Files(fs, name));
            var u := stack + Names(Files(fs, name));
            || |fs.Keys - u| < |fs.Keys - stack|
            || (|fs.Keys - u| == |fs.Keys - stack| && (MaxRank(rank, t) < MaxRank(rank, lines) || t == []))
  {
    var files := Files(fs, name);
    var u := stack + Names(files);
    Shrinks(fs.Keys, stack, u);
    if fs.Keys - u == fs.Keys - stack {
      assert files == [name] ==> name in u && name in fs.Keys;
      TextFromFiles(fs, files);
      var t := Text(fs, files);
      if t != [] {
        var i :| 0 <= i < |t| && MaxRank(rank, t) == rank(t[i].file);
        assert IncludesDir(fs, lines[0].line);
        assert rank(t[i].file) < rank(lines[0].file);
      }
    }
  }

  // ---------------------------------------------------------------------------
  // Why the work list computes the splice
  // ---------------------------------------------------------------------------

  ghost predicate Spliceable(fs: FileSystem, rank: string -> nat, lines: seq<Loc>) {
    Ranked(fs, rank) && FromFiles(fs, lines)
  }

  lemma FromBoth(fs: FileSystem, a: seq<Loc>, b: seq<Loc>)
    requires FromFiles(fs, a) && FromFiles(fs, b)
    ensures FromFiles(fs, a + b)
  {
    forall i | 0 <= i < |a + b|
      ensures (a + b)[i] == if i < |a| then a[i] else b[i - |a|]
    {
    }
  }

  /** One line off the front of the splice. */
  lemma SpliceStep(fs: FileSystem, rank: string -> nat, stack: set<string>, lines: seq<Loc>)
    requires Spliceable(fs, rank, lines) && lines != []
    ensures FromFiles(fs, lines[1..])
    ensures Splice(fs, rank, stack, lines) ==
            Both(Head(fs, rank, stack, lines[0]), Splice(fs, rank, Head(fs, rank, stack, lines[0]).stack, lines[1..]))
  {
    hide KindOf, Ranked, FromFiles, Readable, Files, Text;
    Tail(fs, rank, lines);
    if Follows(fs, stack, lines[0]) {
      TextFromFiles(fs, FilesOf(fs, lines[0]));
    }
  }

  ghost function FilesOf(fs: FileSystem, loc: Loc): seq<string>
    requires KindOf(loc.line).Include?
  {
    Files(fs, KindOf(loc.line).name)
  }

  ghost predicate Follows(fs: FileSystem, stack: set<string>, loc: Loc) {
    KindOf(loc.line).Include? && KindOf(loc.line).name !in stack && Readable(fs, FilesOf(fs, loc))
  }

  ghost function TextOf(fs: FileSystem, loc: Loc): seq<Loc>
    requires KindOf(loc.line).Include? && Readable(fs, FilesOf(fs, loc))
  {
    Text(fs, FilesOf(fs, loc))
  }

  /** What a single line contributes. */
  ghost function Head(fs: FileSystem, rank: string -> nat, stack: set<string>, loc: Loc): Spliced
    requires Ranked(fs, rank)
  {
    hide KindOf, Ranked, FromFiles, Readable, Files, Text;
    if Follows(fs, stack, loc) then
      TextFromFiles(fs, FilesOf(fs, loc));
      var s := Splice(fs, rank, stack + Names(FilesOf(fs, loc)), TextOf(fs, loc));
      s.(steps := s.steps + 1)
    else if KindOf(loc.line).Include? then Spliced([Fail], stack, 1)
    else Spliced([Line(loc)], stack, 1)
  }

  lemma SpliceNothing(fs: FileSystem, rank: string -> nat, stack: set<string>, b: seq<Loc>)
    requires Ranked(fs, rank) && FromFiles(fs, b)
    ensures Splice(fs, rank, stack, []).stack == stack
    ensures Both(Splice(fs, rank, stack, []), Splice(fs, rank, stack, b)) == Splice(fs, rank, stack, b)
  {
    hide KindOf, Ranked, FromFiles, Readable, Files, Text;
  }

  /** Two splices in a row. */
  ghost function Both(x: Spliced, y: Spliced): Spliced {
    Spliced(x.items + y.items, y.stack, x.steps + y.steps)
  }

  /** Splicing a longer list is splicing its two halves, the second with what the first has entered. */
  lemma {:induction false} SpliceAppend(fs: FileSystem, rank: string -> nat, stack: set<string>, a: seq<Loc>, b: seq<Loc>)
    requires Ranked(fs, rank) && FromFiles(fs, a) && FromFiles(fs, b)
    ensures FromFiles(fs, a + b)
    ensures var x := Splice(fs, rank, stack, a);
            Splice(fs, rank, stack, a + b) == Both(x, Splice(fs, rank, x.stack, b))
    decreases |a|
  {
    hide KindOf, Ranked, FromFiles, Splice, Head, Both;
    FromBoth(fs, a, b);
    if a == [] {
      assert a + b == b;
      SpliceNothing(fs, rank, stack, b);
    } else {
      SpliceStep(fs, rank, stack, a);
      SpliceStep(fs, rank, stack, a + b);
      assert (a + b)[0] == a[0] && (a + b)[1..] == a[1..] + b;
      var h := Head(fs, rank, stack, a[0]);
      SpliceAppend(fs, rank, h.stack, a[1..], b);
      var x := Splice(fs, rank, h.stack, a[1..]);
      BothAssociates(h, x, Splice(fs, rank, x.stack, b));
    }
  }

  lemma BothAssociates(x: Spliced, y: Spliced, z: Spliced)
    ensures Both(Both(x, y), z) == Both(x, Both(y, z)) && Both(x, y).stack == y.stack
  {
  }

  /** Putting what an include names in front of the remaining lines leaves the items to come unchanged. */
  lemma WorkListStep(fs: FileSystem, rank: string -> nat, stack: set<string>, lines: seq<Loc>)
    requires Spliceable(fs, rank, lines) && lines != [] && Follows(fs, stack, lines[0])
    ensures Spliceable(fs, rank, TextOf(fs, lines[0]) + lines[1..])
    ensures var r := Splice(fs, rank, stack, lines);
            var s := Splice(fs, rank, stack + Names(FilesOf(fs, lines[0])), TextOf(fs, lines[0]) + lines[1..]);
            r.items == s.items && r.stack == s.stack && r.steps == s.steps + 1
  {
    hide KindOf, Ranked, FromFiles, Readable, Files, Text;
    Tail(fs, rank, lines);
    TextFromFiles(fs, FilesOf(fs, lines[0]));
    SpliceStep(fs, rank, stack, lines);
    SpliceAppend(fs, rank, stack + Names(FilesOf(fs, lines[0])), TextOf(fs, lines[0]), lines[1..]);
  }

  // ---------------------------------------------------------------------------
  // cfg_read
  // ---------------------------------------------------------------------------

  /** The directory listing: each plain item goes to the front of the list. */
  method ListDirectory(dir: string, items: seq<DirItem>) returns (files: seq<string>)
    ensures files == Rev(Items(dir, items))
  {
    files := [];
    for i := 0 to |items|
      invariant files == Rev(Items(dir, items[..i]))
    {
      assert items[..i + 1][..i] == items[..i];
      if !items[i].isDir {
        files := [dir + "/" + items[i].name] + files;
      }
    }
    assert items[..|items|] == items;
  }

  /** Each line goes to the front of the work list. */
  method Prepend(expand: seq<Loc>, lines: seq<Loc>) returns (r: seq<Loc>)
    ensures r == Rev(expand) + lines
  {
    r := lines;
    for i := 0 to |expand|
      invariant r == Rev(expand[..i]) + lines
    {
      r := [expand[i]] + r;
      assert Rev(expand[..i + 1]) == [expand[i]] + Rev(expand[..i]);
    }
    assert expand[..|expand|] == expand;
  }

  /** The loop over the files of one include, given from last to first. It enters every file on the stack, and
      puts their lines in front of the work list, where they end up in order. */
  method IncludeFiles(fs: FileSystem, files: seq<string>, lines: seq<Loc>, stack: seq<string>)
      returns (ok: bool, lines': seq<Loc>, stack': seq<string>)
    ensures ok <==> Readable(fs, Rev(files))
    ensures ok ==> lines' == Text(fs, Rev(files)) + lines && Names(stack') == Names(stack) + Names(Rev(files))
  {
    hide Locs, Names, Included, Readable;
    lines', stack' := lines, stack;
    IncludesNothing(fs, files, lines, stack);
    for i := 0 to |files|
      invariant Included(fs, Rev(files[..i]), lines, stack, lines', stack')
    {
      var file := files[i];
      RevMore(files, i);
      if file !in fs || !fs[file].File? {
        Unreadable(fs, files, i);
        ok := false;
        return;
      }
      IncludedMore(fs, file, Rev(files[..i]), lines, stack, lines', stack');
      stack' := [file] + stack';
      var expand := ExpandFile(file, fs[file].lines, false);
      RevRev(Locs(file, fs[file].lines));
      lines' := Prepend(expand, lines');
    }
    assert files[..|files|] == files;
    IncludedAll(fs, Rev(files), lines, stack, lines', stack');
    ok := true;
  }

  /** These files have been entered, and their lines put in front. */
  ghost predicate Included(fs: FileSystem, done: seq<string>, lines: seq<Loc>, stack: seq<string>,
    lines': seq<Loc>, stack': seq<string>)
  {
    && Readable(fs, done)
    && lines' == Text(fs, done) + lines
    && Names(stack') == Names(stack) + Names(done)
  }

  lemma IncludedAll(fs: FileSystem, done: seq<string>, lines: seq<Loc>, stack: seq<string>, lines': seq<Loc>, stack': seq<string>)
    requires Included(fs, done, lines, stack, lines', stack')
    ensures Readable(fs, done) && lines' == Text(fs, done) + lines && Names(stack') == Names(stack) + Names(done)
  {
  }

  lemma IncludedMore(fs: FileSystem, file: string, done: seq<string>, lines: seq<Loc>, stack: seq<string>,
    lines': seq<Loc>, stack': seq<string>)
    requires Included(fs, done, lines, stack, lines', stack') && file in fs && fs[file].File?
    ensures Included(fs, [file] + done, lines, stack, Locs(file, fs[file].lines) + lines', [file] + stack')
  {
    hide Locs, Text, Names;
    TextMore(fs, file, done, lines);
    NamesCons(file, stack');
  }

  lemma Unreadable(fs: FileSystem, files: seq<string>, i: nat)
    requires i < |files| && (files[i] !in fs || !fs[files[i]].File?)
    ensures !Readable(fs, Rev(files))
  {
    assert Rev(files)[|files| - 1 - i] == files[i];
  }

  lemma IncludesNothing(fs: FileSystem, files: seq<string>, lines: seq<Loc>, stack: seq<string>)
    ensures Included(fs, Rev(files[..0]), lines, stack, lines, stack)
  {
    assert Rev(files[..0]) == [];
  }

  lemma RevMore(files: seq<string>, i: nat)
    requires i < |files|
    ensures Rev(files[..i + 1]) == [files[i]] + Rev(files[..i])
  {
  }

  lemma NamesCons(x: string, s: seq<string>)
    ensures Names([x] + s) == Names(s) + {x}
  {
  }

  lemma TextMore(fs: FileSystem, file: string, done: seq<string>, lines: seq<Loc>)
    requires Readable(fs, done) && file in fs && fs[file].File?
    ensures Readable(fs, [file] + done)
    ensures Text(fs, [file] + done) + lines == Locs(file, fs[file].lines) + (Text(fs, done) + lines)
    ensures Names([file] + done) == Names(done) + {file}
  {
    assert ([file] + done)[1..] == done;
    assert ([file] + done)[0] == file;
  }

  lemma RevRev<T>(s: seq<T>)
    ensures Rev(Rev(s)) == s
  {
  }

  /** An include directive: the panic of a name already entered or of an unreadable file, or the new work list. */
  method Follow(fs: FileSystem, lines: seq<Loc>, stack: seq<string>) returns (ok: bool, lines': seq<Loc>, stack': seq<string>)
    requires lines != [] && KindOf(lines[0].line).Include?
    ensures ok <==> Follows(fs, Names(stack), lines[0])
    ensures ok ==> lines' == TextOf(fs, lines[0]) + lines[1..]
    ensures ok ==> Names(stack') == Names(stack) + Names(FilesOf(fs, lines[0]))
  {
    hide KindOf, Text, Locs, Readable;
    var filename := KindOf(lines[0].line).name;
    if filename in stack {
      return false, [], [];
    }
    var files := [filename];
    if filename in fs && fs[filename].Dir? {
      files := ListDirectory(filename, fs[filename].items);
      RevRev(Items(filename, fs[filename].items));
    }
    assert Rev(files) == FilesOf(fs, lines[0]);
    ok, lines', stack' := IncludeFiles(fs, files, lines[1..], stack);
  }

  /** The loop of cfg_read between two lines. */
  datatype Work = Work(rd: Reader, lines: seq<Loc>, stack: set<string>)

  ghost predicate Stopped(w: Work) { w.lines == [] || !Running(w.rd) }

  /** One round of the loop. */
  ghost function NextWork(fs: FileSystem, bad: Group -> bool, w: Work): Work
    requires !Stopped(w)
  {
    hide KindOf, FeedLine;
    var l := w.lines[0];
    if Follows(fs, w.stack, l) then Work(w.rd, TextOf(fs, l) + w.lines[1..], w.stack + Names(FilesOf(fs, l)))
    else if KindOf(l.line).Include? then Work(w.rd.(panicked := true), w.lines[1..], w.stack)
    else Work(FeedLine(w.rd, bad, l), w.lines[1..], w.stack)
  }

  ghost function WorkAfter(fs: FileSystem, bad: Group -> bool, n: nat, w: Work): Work {
    if n == 0 || Stopped(w) then w else WorkAfter(fs, bad, n - 1, NextWork(fs, bad, w))
  }

  ghost function Opening(fs: FileSystem, main: string): Work
    requires main in fs && fs[main].File?
  {
    Work(FRESH, Locs(main, fs[main].lines), {main})
  }

  /** The loop comes to an end. */
  ghost predicate Ends(fs: FileSystem, bad: Group -> bool, w: Work) {
    exists n: nat :: Stopped(WorkAfter(fs, bad, n, w))
  }

  /** What is done with the last group. */
  function Closed(rd: Reader, bad: Group -> bool): Reader {
    if rd.panicked || rd.grp.None? then rd
    else if bad(rd.grp.value) then rd.(grp := None, error := 1)
    else rd.(groups := rd.groups + [rd.grp.value], grp := None)
  }

  lemma FeedNeverPanics(rd: Reader, bad: Group -> bool, loc: Loc)
    ensures FeedLine(rd, bad, loc).panicked == rd.panicked
  {
    hide KindOf;
  }

  lemma {:induction false} StopsOnce(fs: FileSystem, bad: Group -> bool, m: nat, n: nat, w: Work)
    requires Stopped(WorkAfter(fs, bad, m, w)) && m <= n
    ensures WorkAfter(fs, bad, n, w) == WorkAfter(fs, bad, m, w)
    decreases m
  {
    hide NextWork;
    if m > 0 && !Stopped(w) {
      StopsOnce(fs, bad, m - 1, n - 1, NextWork(fs, bad, w));
    }
  }

  /** cfg_read, for every file system on which it ends: the result is that of its loop, and that of reading the
      splice of everything included line by line. */
  method CfgRead(fs: FileSystem, bad: Group -> bool, main: string) returns (rd: Reader)
    requires main in fs && fs[main].File? ==> Ends(fs, bad, Opening(fs, main))
    ensures !(main in fs && fs[main].File?) ==> rd == FRESH.(panicked := true)
    ensures main in fs && fs[main].File? ==>
              forall n: nat :: Stopped(WorkAfter(fs, bad, n, Opening(fs, main))) ==>
                rd == Closed(WorkAfter(fs, bad, n, Opening(fs, main)).rd, bad)
    ensures forall rank: string -> nat :: Ranked(fs, rank) ==> rd == Outcome(fs, rank, bad, main)
    ensures forall doc :: main in fs && fs[main] == File(Document(doc)) && GoodDocument(doc, bad) ==>
              rd == Reader(GroupsOf(doc), None, 0, false)
  {
    hide KindOf, Ranked, Locs, FeedLine, Follows, TextOf, NextWork, Outcome, Document, GoodDocument, GroupsOf;
    rd := FRESH;
    if main !in fs || !fs[main].File? {
      MainMissing(fs, bad, main);
      return rd.(panicked := true);
    }
    var lines := ExpandFile(main, fs[main].lines, true);
    var stack := [main];
    ghost var start := Opening(fs, main);
    ghost var rounds: nat :| Stopped(WorkAfter(fs, bad, rounds, start));
    ghost var left, w := rounds, start;
    assert Names([main]) == {main};
    while Running(rd) && |lines| > 0
      invariant w == Work(rd, lines, Names(stack)) && !rd.panicked
      invariant WorkAfter(fs, bad, left, w) == WorkAfter(fs, bad, rounds, start)
      decreases left
    {
      var loc := lines[0];
      w := NextWork(fs, bad, w);
      left := left - 1;
      if KindOf(loc.line).Include? {
        var ok, lines', stack' := Follow(fs, lines, stack);
        FollowIs(fs, bad, Work(rd, lines, Names(stack)));
        if !ok {
          rd := rd.(panicked := true);
          break;
        }
        lines, stack := lines', stack';
      } else {
        FeedIs(fs, bad, Work(rd, lines, Names(stack)));
        FeedNeverPanics(rd, bad, loc);
        rd := FeedLine(rd, bad, loc);
        lines := lines[1..];
      }
    }
    assert Stopped(w) && w.rd == rd;
    Settles(fs, bad, main, rounds, rd);
    DocumentsSettle(fs, bad, main, rd);
    if !rd.panicked && rd.grp.Some? {
      if bad(rd.grp.value) {
        rd := rd.(grp := None, error := 1);
      } else {
        rd := rd.(groups := rd.groups + [rd.grp.value], grp := None);
      }
    }
  }

  lemma FollowIs(fs: FileSystem, bad: Group -> bool, w: Work)
    requires !Stopped(w) && KindOf(w.lines[0].line).Include?
    ensures var l := w.lines[0];
            NextWork(fs, bad, w) ==
            if Follows(fs, w.stack, l) then Work(w.rd, TextOf(fs, l) + w.lines[1..], w.stack + Names(FilesOf(fs, l)))
            else Work(w.rd.(panicked := true), w.lines[1..], w.stack)
  {
    hide KindOf;
  }

  lemma FeedIs(fs: FileSystem, bad: Group -> bool, w: Work)
    requires !Stopped(w) && !KindOf(w.lines[0].line).Include?
    ensures NextWork(fs, bad, w) == Work(FeedLine(w.rd, bad, w.lines[0]), w.lines[1..], w.stack)
  {
    hide KindOf, FeedLine;
  }

  // ---------------------------------------------------------------------------
  // The loop reads the splice
  // ---------------------------------------------------------------------------

  /** What the whole run makes of the splice. */
  ghost function Outcome(fs: FileSystem, rank: string -> nat, bad: Group -> bool, main: string): Reader
    requires Ranked(fs, rank)
  {
    if !Readable(fs, [main]) then FRESH.(panicked := true)
    else
      TextFromFiles(fs, [main]);
      Closed(Parse(FRESH, bad, Splice(fs, rank, {main}, Text(fs, [main])).items), bad)
  }

  lemma MainMissing(fs: FileSystem, bad: Group -> bool, main: string)
    requires !(main in fs && fs[main].File?)
    ensures forall rank: string -> nat :: Ranked(fs, rank) ==> Outcome(fs, rank, bad, main) == FRESH.(panicked := true)
  {
    hide Ranked, Splice, Parse;
    assert [main][0] == main;
  }

  lemma ParseStep(rd: Reader, bad: Group -> bool, h: Item, items: seq<Item>)
    requires Running(rd)
    ensures Parse(rd, bad, [h] + items) ==
            Parse(match h case Fail => rd.(panicked := true) case Line(loc) => FeedLine(rd, bad, loc), bad, items)
  {
    hide FeedLine;
    assert ([h] + items)[1..] == items;
  }

  ghost function Left(fs: FileSystem, rank: string -> nat, w: Work): Spliced
    requires Spliceable(fs, rank, w.lines)
  {
    Splice(fs, rank, w.stack, w.lines)
  }

  /** A round of the loop takes the first item off the splice of what is left, or replaces an include by its splice. */
  lemma RoundKeeps(fs: FileSystem, rank: string -> nat, bad: Group -> bool, w: Work)
    requires Spliceable(fs, rank, w.lines) && !Stopped(w)
    ensures var v := NextWork(fs, bad, w);
            && Spliceable(fs, rank, v.lines)
            && Left(fs, rank, w).steps == Left(fs, rank, v).steps + 1
            && Parse(w.rd, bad, Left(fs, rank, w).items) == Parse(v.rd, bad, Left(fs, rank, v).items)
  {
    hide KindOf, Ranked, FromFiles, Readable, Files, Text, Splice, Parse, Names, FeedLine;
    var l := w.lines[0];
    if Follows(fs, w.stack, l) {
      WorkListStep(fs, rank, w.stack, w.lines);
    } else {
      SpliceStep(fs, rank, w.stack, w.lines);
      var rest := Splice(fs, rank, w.stack, w.lines[1..]).items;
      ParseStep(w.rd, bad, if KindOf(l.line).Include? then Fail else Line(l), rest);
    }
  }

  lemma {:induction false} LoopReadsSplice(fs: FileSystem, rank: string -> nat, bad: Group -> bool, n: nat, w: Work)
    requires Spliceable(fs, rank, w.lines)
    ensures Left(fs, rank, w).steps <= n ==> Stopped(WorkAfter(fs, bad, n, w))
    ensures Stopped(WorkAfter(fs, bad, n, w)) ==> WorkAfter(fs, bad, n, w).rd == Parse(w.rd, bad, Left(fs, rank, w).items)
    decreases n
  {
    hide KindOf, Ranked, FromFiles, NextWork, Parse, Left;
    if Stopped(w) {
      NothingLeft(fs, rank, bad, w);
    } else {
      RoundKeeps(fs, rank, bad, w);
      if n > 0 {
        LoopReadsSplice(fs, rank, bad, n - 1, NextWork(fs, bad, w));
      }
    }
  }

  lemma NothingLeft(fs: FileSystem, rank: string -> nat, bad: Group -> bool, w: Work)
    requires Spliceable(fs, rank, w.lines) && Stopped(w)
    ensures Parse(w.rd, bad, Left(fs, rank, w).items) == w.rd
  {
    hide KindOf, Ranked, FromFiles, Readable, Files, Text, FeedLine;
  }

  lemma OpeningSplice(fs: FileSystem, rank: string -> nat, bad: Group -> bool, main: string)
    requires Ranked(fs, rank) && main in fs && fs[main].File?
    ensures var w := Opening(fs, main);
            && Spliceable(fs, rank, w.lines)
            && Outcome(fs, rank, bad, main) == Closed(Parse(w.rd, bad, Left(fs, rank, w).items), bad)
  {
    hide KindOf, Ranked, FromFiles, Locs, FeedLine, Splice, Parse;
    TextFromFiles(fs, [main]);
    assert Text(fs, [main]) == Locs(main, fs[main].lines);
  }

  /** However many rounds are counted, the loop ends in one state, which is that of the splice if the splice exists. */
  lemma Settles(fs: FileSystem, bad: Group -> bool, main: string, rounds: nat, rd: Reader)
    requires main in fs && fs[main].File?
    requires Stopped(WorkAfter(fs, bad, rounds, Opening(fs, main))) && WorkAfter(fs, bad, rounds, Opening(fs, main)).rd == rd
    ensures forall n: nat :: Stopped(WorkAfter(fs, bad, n, Opening(fs, main))) ==>
              WorkAfter(fs, bad, n, Opening(fs, main)).rd == rd
    ensures forall rank: string -> nat :: Ranked(fs, rank) ==> Outcome(fs, rank, bad, main) == Closed(rd, bad)
  {
    hide KindOf, Ranked, Opening, Outcome, Left, Parse, Closed, Stopped;
    var w := Opening(fs, main);
    forall n: nat | Stopped(WorkAfter(fs, bad, n, w))
      ensures WorkAfter(fs, bad, n, w).rd == rd
    {
      if n <= rounds {
        StopsOnce(fs, bad, n, rounds, w);
      } else {
        StopsOnce(fs, bad, rounds, n, w);
      }
    }
    forall rank: string -> nat | Ranked(fs, rank)
      ensures Outcome(fs, rank, bad, main) == Closed(rd, bad)
    {
      OpeningSplice(fs, rank, bad, main);
      LoopReadsSplice(fs, rank, bad, rounds, w);
    }
  }

  lemma DocumentsSettle(fs: FileSystem, bad: Group -> bool, main: string, rd: Reader)
    requires main in fs && fs[main].File?
    requires forall n: nat :: Stopped(WorkAfter(fs, bad, n, Opening(fs, main))) ==>
               WorkAfter(fs, bad, n, Opening(fs, main)).rd == rd
    ensures forall doc :: fs[main] == File(Document(doc)) && GoodDocument(doc, bad) ==>
              rd == Reader(GroupsOf(doc), None, 0, false)
  {
    hide KindOf, Opening, Document, GoodDocument, GroupsOf, WorkAfter;
    forall doc | fs[main] == File(Document(doc)) && GoodDocument(doc, bad)
      ensures rd == Reader(GroupsOf(doc), None, 0, false)
    {
      DocumentReadBack(fs, bad, main, doc);
    }
  }

  /** Where directory includes are nested in a well-founded way, the reader ends. */
  lemma RankedEnds(fs: FileSystem, rank: string -> nat, bad: Group -> bool, main: string)
    requires Ranked(fs, rank) && main in fs && fs[main].File?
    ensures Ends(fs, bad, Opening(fs, main))
  {
    hide KindOf, Ranked, Opening, Left, Parse, Outcome;
    OpeningSplice(fs, rank, bad, main);
    LoopReadsSplice(fs, rank, bad, Left(fs, rank, Opening(fs, main)).steps, Opening(fs, main));
  }

  /** So it does when no line of a file includes a directory: any ranking will do. */
  lemma PlainFilesEnd(fs: FileSystem, bad: Group -> bool, main: string)
    requires forall l: Loc :: l.file in fs && fs[l.file].File? && l in Locs(l.file, fs[l.file].lines) ==> !IncludesDir(fs, l.line)
    requires main in fs && fs[main].File?
    ensures Ends(fs, bad, Opening(fs, main))
  {
    hide KindOf, Locs, Ends;
    var rank: string -> nat := _ => 0;
    assert Ranked(fs, rank);
    RankedEnds(fs, rank, bad, main);
  }

  // ---------------------------------------------------------------------------
  // What lines mean
  // ---------------------------------------------------------------------------

  /** A word is mentioned exactly where it stands. */
  lemma {:induction false} MentionsIff(s: string, word: string)
    ensures Mentions(s, word) <==> exists i :: 0 <= i <= |s| && word <= s[i..]
  {
    assert s[0..] == s;
    if s != "" {
      MentionsIff(s[1..], word);
      assert forall i :: 0 <= i <= |s[1..]| ==> s[1..][i..] == s[i + 1..];
      if i :| 0 < i <= |s| && word <= s[i..] {
        assert s[1..][i - 1..] == s[i..];
      }
    }
  }

  /** No blanks at either end. */
  ghost predicate Trim(s: string) { s == "" || (!IsBlank(s[0]) && !IsBlank(s[|s| - 1])) }

  ghost predicate AllBlank(s: string) { forall i :: 0 <= i < |s| ==> IsBlank(s[i]) }

  lemma {:induction false} StripBlank(s: string)
    requires AllBlank(s)
    ensures Strip(s) == ""
  {
    if s != "" {
      StripBlank(s[1..]);
    }
  }

  /** Stripping takes the blanks off both ends and nothing else. */
  lemma StripTrims(before: string, t: string, after: string)
    requires AllBlank(before) && AllBlank(after) && Trim(t)
    ensures Strip(before + t + after) == t
  {
    if t == "" {
      assert AllBlank(before + t + after);
      StripBlank(before + t + after);
    } else {
      assert before + t + after == before + (t + after);
      StripLeftSkips(before, t + after);
      StripRightSkips(after, t);
    }
  }

  /** Text that is not in quotes stands for itself. */
  lemma ValueUnquoted(before: string, t: string, after: string)
    requires AllBlank(before) && AllBlank(after) && Trim(t) && !(t != "" && t[0] == '"' && t[|t| - 1] == '"')
    ensures Value(before + t + after) == t
  {
    StripTrims(before, t, after);
  }

  /** Inside quotes, a backslash before anything but a backslash or a quote stands for itself. */
  lemma {:induction false} UnescapeKeeps(s: string)
    requires forall i :: 0 <= i < |s| - 1 && s[i] == '\\' ==> s[i + 1] != '\\' && s[i + 1] != '"'
    ensures Unescape(s) == s
  {
    if s != "" {
      if s[0] != '\\' || |s| == 1 {
        UnescapeKeeps(s[1..]);
      } else {
        UnescapeKeeps(s[2..]);
      }
    }
  }

  /** A line is an error exactly when it is not blank, not a comment, and has no equals sign. */
  lemma NoEqualsIff(s: string)
    ensures KindOf(s) == NoEquals <==> Strip(s) != "" && Strip(s)[0] != '#' && '=' !in Strip(s)
    ensures KindOf(s) == Blank <==> Strip(s) == ""
    ensures KindOf(s) == Comment <==> Strip(s) != "" && Strip(s)[0] == '#'
  {
    hide Strip, Value, Mentions;
  }

  /** A name that can be written in front of an equals sign. */
  ghost predicate PlainName(name: string) {
    Trim(name) && '=' !in name && (name == "" || name[0] != '#')
  }

  function Assignment(name: string, value: string): string { name + "=" + Quote(value) }

  /** A written setting is read as that setting, unless the word include is in it: then it is a directive. */
  lemma AssignmentIs(name: string, value: string)
    requires PlainName(name)
    ensures KindOf(Assignment(name, value)) ==
            if Mentions(Assignment(name, value), "include") then Include(value) else Setting(name, value)
  {
    hide Strip, Value, Mentions, Quote, Assignment, Find;
    var s := Assignment(name, value);
    AssignmentParts(name, value);
    NameIs(name);
    ValueIs(value);
  }

  lemma AssignmentParts(name: string, value: string)
    requires PlainName(name)
    ensures var s := Assignment(name, value);
            && Strip(s) == s != "" && s[0] != '#' && Find(s, '=', 0) == |name| && |name| < |s|
            && s[..|name|] == name && s[|name| + 1..] == Quote(value)
  {
    hide Strip, Value, Mentions, Escape;
    var s := Assignment(name, value);
    var q := Quote(value);
    assert q[|q| - 1] == '"' && |q| >= 2;
    Parts(name, q);
    assert Trim(s) && "" + s + "" == s;
    StripTrims("", s, "");
  }

  lemma Parts(name: string, q: string)
    requires '=' !in name && |q| >= 2
    ensures var s := name + "=" + q;
            && Find(s, '=', 0) == |name| < |s| && s[..|name|] == name && s[|name| + 1..] == q
            && s[|s| - 1] == q[|q| - 1] && s[0] == if name == "" then '=' else name[0]
  {
    var s := name + "=" + q;
    assert s[|name|] == '=' && forall i :: 0 <= i < |name| ==> s[i] == name[i];
  }

  lemma NameIs(name: string)
    requires Trim(name)
    ensures Strip(name) == name
  {
    hide Strip;
    assert "" + name + "" == name;
    StripTrims("", name, "");
  }

  lemma ValueIs(value: string)
    ensures Value(Quote(value)) == value
  {
    hide Value, Quote;
    assert "" + Quote(value) + "" == Quote(value);
    ValueQuote("", value, "");
  }

  /** Even in the value. */
  lemma IncludeInValue()
    ensures KindOf(Assignment("a", "include")) == Include("include")
  {
    hide KindOf, Escape;
    var s := Assignment("a", "include");
    EscapeKeeps("include");
    assert "include" <= s[3..];
    MentionsIff(s, "include");
    AssignmentIs("a", "include");
  }

  lemma {:induction false} EscapeKeeps(s: string)
    requires '\\' !in s && '"' !in s
    ensures Escape(s) == s
  {
    if s != "" {
      EscapeKeeps(s[1..]);
    }
  }

  // ---------------------------------------------------------------------------
  // Writing groups and reading them back
  // ---------------------------------------------------------------------------

  /** A comment or a setting. */
  datatype DocLine = Note(text: string) | Set(name: string, value: string)

  function Written(d: DocLine): string { match d case Note(t) => t case Set(name, value) => Assignment(name, value) }

  ghost predicate Writable(d: DocLine) {
    match d
    case Note(t) => Strip(t) != "" && Strip(t)[0] == '#' && !EndsInBackslash(t)
    case Set(name, value) => PlainName(name) && !Mentions(Assignment(name, value), "include")
  }

  /** The group that these lines set; None without a setting. */
  ghost function GroupOf(ds: seq<DocLine>): Option<Group> {
    if ds == [] then None
    else
      var g, d := GroupOf(ds[..|ds| - 1]), ds[|ds| - 1];
      if d.Note? then g else Some((if g.None? then map[] else g.value)[d.name := d.value])
  }

  /** A name has the value of its last setting. */
  lemma {:induction false} LastSettingWins(ds: seq<DocLine>, i: nat)
    requires i < |ds| && ds[i].Set? && forall j :: i < j < |ds| && ds[j].Set? ==> ds[j].name != ds[i].name
    ensures GroupOf(ds).Some? && ds[i].name in GroupOf(ds).value && GroupOf(ds).value[ds[i].name] == ds[i].value
    decreases |ds|
  {
    if i < |ds| - 1 {
      LastSettingWins(ds[..|ds| - 1], i);
    }
  }

  lemma {:induction false} OnlySettings(ds: seq<DocLine>, name: string)
    requires GroupOf(ds).Some? && name in GroupOf(ds).value
    ensures exists i :: 0 <= i < |ds| && ds[i].Set? && ds[i].name == name
  {
    var n := |ds| - 1;
    if ds[n].Set? && ds[n].name == name {
    } else {
      OnlySettings(ds[..n], name);
      var i :| 0 <= i < |ds[..n]| && ds[..n][i].Set? && ds[..n][i].name == name;
      assert ds[i] == ds[..n][i];
    }
  }

  /** The lines of one group. */
  ghost function WrittenLines(ds: seq<DocLine>): seq<string> {
    if ds == [] then [] else WrittenLines(ds[..|ds| - 1]) + [Written(ds[|ds| - 1])]
  }

  /** Groups, each with a blank line behind it. */
  ghost function Document(doc: seq<seq<DocLine>>): seq<string> {
    if doc == [] then [] else Document(doc[..|doc| - 1]) + WrittenLines(doc[|doc| - 1]) + [""]
  }

  ghost function GroupsOf(doc: seq<seq<DocLine>>): seq<Group> {
    if doc == [] then []
    else
      var g := GroupOf(doc[|doc| - 1]);
      GroupsOf(doc[..|doc| - 1]) + (if g.Some? then [g.value] else [])
  }

  ghost predicate AllWritable(ds: seq<DocLine>) { forall i :: 0 <= i < |ds| ==> Writable(ds[i]) }

  /** Lines as above, in groups that add_group does not refuse. */
  ghost predicate GoodDocument(doc: seq<seq<DocLine>>, bad: Group -> bool) {
    forall i :: 0 <= i < |doc| ==> AllWritable(doc[i]) && (GroupOf(doc[i]).Some? ==> !bad(GroupOf(doc[i]).value))
  }

  /** Reading lines that include nothing. */
  ghost function FeedAll(rd: Reader, bad: Group -> bool, lines: seq<Loc>): Reader {
    if lines == [] then rd
    else
      var before := FeedAll(rd, bad, lines[..|lines| - 1]);
      if Running(before) then FeedLine(before, bad, lines[|lines| - 1]) else before
  }

  ghost predicate NothingIncluded(lines: seq<Loc>) { forall i :: 0 <= i < |lines| ==> !KindOf(lines[i].line).Include? }

  lemma FeedSnoc(rd: Reader, bad: Group -> bool, lines: seq<Loc>, l: Loc)
    ensures FeedAll(rd, bad, lines + [l]) ==
            var before := FeedAll(rd, bad, lines); if Running(before) then FeedLine(before, bad, l) else before
  {
    hide FeedLine;
    assert (lines + [l])[..|lines|] == lines;
  }

  /** What is read first comes first. */
  lemma {:induction false} FeedCons(rd: Reader, bad: Group -> bool, lines: seq<Loc>)
    requires lines != [] && Running(rd)
    ensures FeedAll(rd, bad, lines) == FeedAll(FeedLine(rd, bad, lines[0]), bad, lines[1..])
    decreases |lines|
  {
    hide FeedLine;
    var n := |lines| - 1;
    if n > 0 {
      FeedCons(rd, bad, lines[..n]);
      assert lines[..n][1..] == lines[1..][..n - 1];
    } else {
      assert lines[..0] == [];
    }
  }

  lemma {:induction false} FeedStopped(rd: Reader, bad: Group -> bool, lines: seq<Loc>)
    requires !Running(rd)
    ensures FeedAll(rd, bad, lines) == rd
  {
    hide FeedLine;
    if lines != [] {
      FeedStopped(rd, bad, lines[..|lines| - 1]);
    }
  }

  lemma {:induction false} FeedAppend(rd: Reader, bad: Group -> bool, a: seq<Loc>, b: seq<Loc>)
    ensures FeedAll(rd, bad, a + b) == FeedAll(FeedAll(rd, bad, a), bad, b)
    decreases |b|
  {
    hide FeedLine;
    if b == [] {
      assert a + b == a;
    } else {
      var n := |b| - 1;
      FeedAppend(rd, bad, a, b[..n]);
      assert (a + b)[..|a + b| - 1] == a + b[..n];
    }
  }

  /** The loop over such lines feeds them one by one, up to the first that stops it. */
  lemma {:induction false} LoopFeeds(fs: FileSystem, bad: Group -> bool, w: Work, front: nat)
    requires front <= |w.lines| && NothingIncluded(w.lines[..front]) && Running(w.rd)
    requires front == |w.lines| || !Running(FeedAll(w.rd, bad, w.lines[..front]))
    ensures Stopped(WorkAfter(fs, bad, front, w)) && WorkAfter(fs, bad, front, w).rd == FeedAll(w.rd, bad, w.lines[..front])
    decreases front
  {
    hide KindOf, FeedLine, NextWork;
    if front > 0 {
      var lines := w.lines[..front];
      assert lines[0] == w.lines[0] && w.lines[1..][..front - 1] == lines[1..];
      FeedIs(fs, bad, w);
      FeedCons(w.rd, bad, lines);
      var v := NextWork(fs, bad, w);
      if Running(v.rd) {
        LoopFeeds(fs, bad, v, front - 1);
      } else {
        FeedStopped(v.rd, bad, lines[1..]);
        assert WorkAfter(fs, bad, front - 1, v) == v;
      }
    }
  }

  /** Lines of one group, read with nothing open, leave the group open. */
  lemma {:induction false} FeedGroup(groups: seq<Group>, bad: Group -> bool, ds: seq<DocLine>, lines: seq<Loc>)
    requires AllWritable(ds) && |lines| == |ds| && forall i :: 0 <= i < |ds| ==> lines[i].line == Written(ds[i])
    ensures FeedAll(Reader(groups, None, 0, false), bad, lines) == Reader(groups, GroupOf(ds), 0, false)
    ensures NothingIncluded(lines)
  {
    hide KindOf, Written, Writable;
    if ds != [] {
      var n := |ds| - 1;
      FeedGroup(groups, bad, ds[..n], lines[..n]);
      WrittenIs(ds[n], lines[n], groups, GroupOf(ds[..n]), bad);
    }
  }

  lemma WrittenIs(d: DocLine, l: Loc, groups: seq<Group>, g: Option<Group>, bad: Group -> bool)
    requires Writable(d) && l.line == Written(d)
    ensures !KindOf(l.line).Include?
    ensures FeedLine(Reader(groups, g, 0, false), bad, l) ==
            Reader(groups, if d.Note? then g else Some((if g.None? then map[] else g.value)[d.name := d.value]), 0, false)
  {
    hide KindOf, Strip, Mentions, Assignment;
    match d
    case Note(t) => NoEqualsIff(t);
    case Set(name, value) => AssignmentIs(name, value);
  }

  lemma BlankIs(groups: seq<Group>, g: Option<Group>, bad: Group -> bool, l: Loc)
    requires AllBlank(l.line)
    ensures !KindOf(l.line).Include?
    ensures FeedLine(Reader(groups, g, 0, false), bad, l) ==
            if g.None? then Reader(groups, None, 0, false)
            else if bad(g.value) then Reader(groups, None, l.lineNo, false)
            else Reader(groups + [g.value], None, 0, false)
  {
    hide KindOf, Strip;
    StripBlank(l.line);
    NoEqualsIff(l.line);
  }

  lemma {:induction false} WrittenLength(ds: seq<DocLine>)
    ensures |WrittenLines(ds)| == |ds| && forall i :: 0 <= i < |ds| ==> WrittenLines(ds)[i] == Written(ds[i])
  {
    hide Written;
    if ds != [] {
      WrittenLength(ds[..|ds| - 1]);
    }
  }

  ghost predicate Shown(lines: seq<Loc>, text: seq<string>) {
    |lines| == |text| && forall i :: 0 <= i < |text| ==> lines[i].line == text[i]
  }

  /** One group and a blank line behind it. */
  lemma FeedGroupAndBlank(groups: seq<Group>, bad: Group -> bool, ds: seq<DocLine>, front: seq<Loc>, blank: Loc)
    requires AllWritable(ds) && Shown(front, WrittenLines(ds)) && AllBlank(blank.line)
    ensures NothingIncluded(front + [blank])
    ensures FeedAll(Reader(groups, None, 0, false), bad, front + [blank]) ==
            var g := GroupOf(ds);
            if g.None? then Reader(groups, None, 0, false)
            else if bad(g.value) then Reader(groups, None, blank.lineNo, false)
            else Reader(groups + [g.value], None, 0, false)
  {
    hide KindOf, FeedLine, Written, Writable, GroupOf, WrittenLines, AllBlank;
    WrittenLength(ds);
    FeedGroup(groups, bad, ds, front);
    FeedSnoc(Reader(groups, None, 0, false), bad, front, blank);
    BlankIs(groups, GroupOf(ds), bad, blank);
    NothingInBoth(front, [blank]);
  }

  /** A good document is read as its groups. */
  lemma {:induction false} FeedDocument(bad: Group -> bool, doc: seq<seq<DocLine>>, lines: seq<Loc>)
    requires GoodDocument(doc, bad) && Shown(lines, Document(doc))
    ensures NothingIncluded(lines)
    ensures FeedAll(FRESH, bad, lines) == Reader(GroupsOf(doc), None, 0, false)
  {
    hide KindOf, FeedLine, AllWritable, GroupOf, WrittenLines, Shown, NothingIncluded, FeedAll;
    if doc == [] {
      FeedNothing(bad, lines);
    } else {
      var n := |doc| - 1;
      var front, last := Document(doc[..n]), WrittenLines(doc[n]) + [""];
      assert Document(doc) == front + last;
      ShownSplit(lines, front, last);
      var a, b := lines[..|front|], lines[|front|..];
      FeedDocument(bad, doc[..n], a);
      FeedAppend(FRESH, bad, a, b);
      BlankLast(b, WrittenLines(doc[n]));
      FeedGroupAndBlank(GroupsOf(doc[..n]), bad, doc[n], b[..|b| - 1], b[|b| - 1]);
      NothingInBoth(a, b);
    }
  }

  lemma BlankLast(lines: seq<Loc>, text: seq<string>)
    requires Shown(lines, text + [""])
    ensures lines != [] && Shown(lines[..|lines| - 1], text) && AllBlank(lines[|lines| - 1].line)
    ensures lines == lines[..|lines| - 1] + [lines[|lines| - 1]]
  {
    ShownSplit(lines, text, [""]);
    assert (text + [""])[|text|] == "";
  }

  lemma FeedNothing(bad: Group -> bool, lines: seq<Loc>)
    requires Shown(lines, [])
    ensures NothingIncluded(lines) && FeedAll(FRESH, bad, lines) == FRESH
  {
  }

  lemma ShownSplit(lines: seq<Loc>, x: seq<string>, y: seq<string>)
    requires Shown(lines, x + y)
    ensures Shown(lines[..|x|], x) && Shown(lines[|x|..], y) && lines == lines[..|x|] + lines[|x|..]
  {
    forall i | 0 <= i < |x|
      ensures lines[..|x|][i].line == x[i]
    {
      assert (x + y)[i] == x[i];
    }
    forall i | 0 <= i < |y|
      ensures lines[|x|..][i].line == y[i]
    {
      assert (x + y)[|x| + i] == y[i];
    }
  }

  lemma NothingInBoth(a: seq<Loc>, b: seq<Loc>)
    requires NothingIncluded(a) && NothingIncluded(b)
    ensures NothingIncluded(a + b)
  {
    hide KindOf;
    forall i | 0 <= i < |a + b|
      ensures !KindOf((a + b)[i].line).Include?
    {
      assert (a + b)[i] == if i < |a| then a[i] else b[i - |a|];
    }
  }

  /** Lines that do not end in a backslash are logical lines already. */
  lemma {:induction false} JoinPlain(a: seq<string>, b: seq<string>)
    requires forall i :: 0 <= i < |a| ==> !EndsInBackslash(a[i])
    ensures Join(a + b) == a + Join(b)
  {
    if a == [] {
      assert a + b == b;
    } else {
      assert (a + b)[0] == a[0] && (a + b)[1..] == a[1..] + b;
      JoinPlain(a[1..], b);
      assert [a[0]] + (a[1..] + Join(b)) == a + Join(b);
    }
  }

  lemma WrittenEnds(d: DocLine)
    requires Writable(d)
    ensures !EndsInBackslash(Written(d))
  {
    if d.Set? {
      var s := Assignment(d.name, d.value);
      assert s[|s| - 1] == '"';
    }
  }

  lemma {:induction false} DocumentEnds(doc: seq<seq<DocLine>>, bad: Group -> bool)
    requires GoodDocument(doc, bad)
    ensures forall i :: 0 <= i < |Document(doc)| ==> !EndsInBackslash(Document(doc)[i])
  {
    hide EndsInBackslash, GroupOf, Writable, Written;
    if doc != [] {
      var n := |doc| - 1;
      DocumentEnds(doc[..n], bad);
      GroupEnds(doc[n]);
      assert !EndsInBackslash("") by { EmptyEnds(); }
    }
  }

  lemma EmptyEnds()
    ensures !EndsInBackslash("")
  {
  }

  lemma GroupEnds(ds: seq<DocLine>)
    requires AllWritable(ds)
    ensures forall i :: 0 <= i < |WrittenLines(ds)| ==> !EndsInBackslash(WrittenLines(ds)[i])
  {
    hide EndsInBackslash, Writable, Written;
    WrittenLength(ds);
    forall i | 0 <= i < |ds|
      ensures !EndsInBackslash(WrittenLines(ds)[i])
    {
      WrittenEnds(ds[i]);
    }
  }

  lemma NumberedShows(file: string, a: seq<string>, b: seq<string>)
    requires Join(a + b) == a + Join(b)
    ensures |Locs(file, a + b)| >= |a| && Shown(Locs(file, a + b)[..|a|], a)
    ensures forall i :: 0 <= i < |a| ==> Locs(file, a + b)[i].lineNo == i + 1
  {
  }

  /** Writing groups and reading them gives back the groups, in order. */
  lemma DocumentReadBack(fs: FileSystem, bad: Group -> bool, main: string, doc: seq<seq<DocLine>>)
    requires main in fs && fs[main] == File(Document(doc)) && GoodDocument(doc, bad)
    ensures var w := WorkAfter(fs, bad, |Opening(fs, main).lines|, Opening(fs, main));
            Stopped(w) && w.rd == Reader(GroupsOf(doc), None, 0, false)
  {
    hide KindOf, FeedLine, Document, GroupsOf, NextWork, WorkAfter, Locs;
    var text := Document(doc);
    DocumentEnds(doc, bad);
    assert text + [] == text;
    JoinPlain(text, []);
    NumberedShows(main, text, []);
    var lines := Locs(main, text);
    var front := lines[..|text|];
    FeedDocument(bad, doc, front);
    LastNewline(main, text);
    var w := Opening(fs, main);
    if text != [] {
      assert lines == front + [lines[|text|]];
      FeedSnoc(FRESH, bad, front, lines[|text|]);
      BlankIs(GroupsOf(doc), None, bad, lines[|text|]);
    }
    assert w.lines[..|w.lines|] == lines;
    LoopFeeds(fs, bad, w, |w.lines|);
  }

  lemma LastNewline(file: string, text: seq<string>)
    requires Join(text) == text
    ensures if text == [] then Locs(file, text) == [] else |Locs(file, text)| == |text| + 1 && Locs(file, text)[|text|].line == "\n"
  {
  }

  /** The last group of a file needs no blank line: the newline behind every file ends it. */
  lemma LastGroupReadBack(fs: FileSystem, bad: Group -> bool, main: string, doc: seq<seq<DocLine>>, ds: seq<DocLine>)
    requires main in fs && fs[main] == File(Document(doc) + WrittenLines(ds)) && GoodDocument(doc, bad)
    requires AllWritable(ds) && GroupOf(ds).Some? && !bad(GroupOf(ds).value)
    ensures var w := WorkAfter(fs, bad, |Opening(fs, main).lines|, Opening(fs, main));
            Stopped(w) && w.rd == Reader(GroupsOf(doc) + [GroupOf(ds).value], None, 0, false)
  {
    hide KindOf, FeedLine, Document, GroupsOf, GroupOf, NextWork, WorkAfter, Locs, WrittenLines, AllWritable, EndsInBackslash,
      NothingIncluded, FeedAll, Shown, AllBlank, Join;
    var text := Document(doc) + WrittenLines(ds);
    LastText(doc, bad, ds);
    JoinAll(text);
    LastNewline(main, text);
    NewlineIsBlank();
    var lines := Locs(main, text);
    var shown, blank := lines[..|text|], lines[|text|];
    assert lines == shown + [blank];
    AllShown(main, text);
    var k := |Document(doc)|;
    ShownSplit(shown, Document(doc), WrittenLines(ds));
    var a, b := shown[..k], shown[k..];
    FeedDocument(bad, doc, a);
    assert lines == a + (b + [blank]);
    FeedAppend(FRESH, bad, a, b + [blank]);
    FeedGroupAndBlank(GroupsOf(doc), bad, ds, b, blank);
    NothingInBoth(a, b + [blank]);
    var w := Opening(fs, main);
    assert w.lines[..|w.lines|] == lines;
    LoopFeeds(fs, bad, w, |w.lines|);
  }

  lemma NewlineIsBlank()
    ensures AllBlank("\n")
  {
  }

  lemma JoinAll(text: seq<string>)
    requires forall i :: 0 <= i < |text| ==> !EndsInBackslash(text[i])
    ensures Join(text) == text
  {
    hide EndsInBackslash;
    assert text + [] == text;
    JoinPlain(text, []);
  }

  lemma AllShown(file: string, text: seq<string>)
    requires Join(text) == text
    ensures |Locs(file, text)| >= |text| && Shown(Locs(file, text)[..|text|], text)
  {
    hide Join;
    assert text + [] == text;
    NothingJoins();
    NumberedShows(file, text, []);
  }

  lemma NothingJoins()
    ensures Join([]) == []
  {
  }

  lemma LastText(doc: seq<seq<DocLine>>, bad: Group -> bool, ds: seq<DocLine>)
    requires GoodDocument(doc, bad) && AllWritable(ds) && GroupOf(ds).Some?
    ensures var text := Document(doc) + WrittenLines(ds);
            text != [] && forall i :: 0 <= i < |text| ==> !EndsInBackslash(text[i])
  {
    hide Document, EndsInBackslash, GoodDocument, AllWritable;
    DocumentEnds(doc, bad);
    GroupEnds(ds);
    SomeLines(ds);
  }

  lemma SomeLines(ds: seq<DocLine>)
    requires GroupOf(ds).Some?
    ensures WrittenLines(ds) != []
  {
  }

  /** The number of the first line that stops the reader is the error: one without an equals sign. */
  lemma MissingEquals(fs: FileSystem, bad: Group -> bool, main: string, doc: seq<seq<DocLine>>, t: string, rest: seq<string>)
    requires main in fs && fs[main] == File(Document(doc) + [t] + rest) && GoodDocument(doc, bad)
    requires Strip(t) != "" && Strip(t)[0] != '#' && '=' !in Strip(t) && !EndsInBackslash(t)
    ensures var n := |Document(doc)| + 1;
            var w := WorkAfter(fs, bad, n, Opening(fs, main));
            Stopped(w) && w.rd == Reader(GroupsOf(doc), None, n, false)
  {
    hide KindOf, Document, GroupsOf, NextWork, WorkAfter, Locs, Strip, EndsInBackslash;
    var text := Document(doc) + [t];
    DocumentEnds(doc, bad);
    JoinPlain(text, rest);
    NumberedShows(main, text, rest);
    var lines := Locs(main, text + rest)[..|text|];
    var front := lines[..|text| - 1];
    assert Shown(front, Document(doc));
    FeedDocument(bad, doc, front);
    var l := lines[|text| - 1];
    assert lines == front + [l] && l.line == t && l.lineNo == |text|;
    NoEqualsIff(t);
    FeedSnoc(FRESH, bad, front, l);
    LoopFeeds(fs, bad, Opening(fs, main), |text|);
  }

  /** Or the blank line behind a group that add_group refuses. */
  lemma RefusedGroup(fs: FileSystem, bad: Group -> bool, main: string, doc: seq<seq<DocLine>>, ds: seq<DocLine>, rest: seq<string>)
    requires main in fs && fs[main] == File(Document(doc) + (WrittenLines(ds) + [""]) + rest) && GoodDocument(doc, bad)
    requires AllWritable(ds) && GroupOf(ds).Some? && bad(GroupOf(ds).value)
    ensures var n := |Document(doc)| + |ds| + 1;
            var w := WorkAfter(fs, bad, n, Opening(fs, main));
            Stopped(w) && w.rd == Reader(GroupsOf(doc), None, n, false)
  {
    hide KindOf, Document, GroupsOf, NextWork, WorkAfter, Locs, EndsInBackslash, GroupOf, AllWritable, WrittenLines, FeedLine,
      NothingIncluded, FeedAll, Shown;
    var last := WrittenLines(ds) + [""];
    var text := Document(doc) + last;
    WrittenLength(ds);
    RefusedText(doc, bad, ds);
    JoinPlain(text, rest);
    NumberedShows(main, text, rest);
    var lines := Locs(main, text + rest)[..|text|];
    var k := |Document(doc)|;
    ShownSplit(lines, Document(doc), last);
    var a, b := lines[..k], lines[k..];
    BlankLast(b, WrittenLines(ds));
    var blank := b[|b| - 1];
    ShownLength(b, last);
    assert blank == lines[|text| - 1] && blank.lineNo == |text|;
    FeedDocument(bad, doc, a);
    FeedAppend(FRESH, bad, a, b);
    FeedGroupAndBlank(GroupsOf(doc), bad, ds, b[..|b| - 1], blank);
    NothingInBoth(a, b);
    LoopFeeds(fs, bad, Opening(fs, main), |text|);
  }

  lemma ShownLength(lines: seq<Loc>, text: seq<string>)
    requires Shown(lines, text)
    ensures |lines| == |text|
  {
  }

  lemma RefusedText(doc: seq<seq<DocLine>>, bad: Group -> bool, ds: seq<DocLine>)
    requires GoodDocument(doc, bad) && AllWritable(ds)
    ensures var text := Document(doc) + (WrittenLines(ds) + [""]);
            forall i :: 0 <= i < |text| ==> !EndsInBackslash(text[i])
  {
    hide Document, WrittenLines, EndsInBackslash, GoodDocument, AllWritable;
    DocumentEnds(doc, bad);
    GroupEnds(ds);
    EmptyEnds();
  }

  /** Two backslashes at the end of a line leave one and end it. */
  lemma JoinDoubled(p: string, rest: seq<string>)
    ensures Join([p + "\\\\"] + rest) == [p + "\\"] + Join(rest)
  {
    var s := p + "\\\\";
    assert Chop(s) == p + "\\" && ([s] + rest)[1..] == rest;
  }

  /** The lines of files come in the order of the files. */
  lemma {:induction false} TextInOrder(fs: FileSystem, a: seq<string>, b: seq<string>)
    requires Readable(fs, a) && Readable(fs, b)
    ensures Readable(fs, a + b) && Text(fs, a + b) == Text(fs, a) + Text(fs, b)
    ensures forall f :: f in fs && fs[f].File? ==> Readable(fs, [f]) && Text(fs, [f]) == Locs(f, fs[f].lines)
  {
    hide Locs;
    forall f | f in fs && fs[f].File?
      ensures Readable(fs, [f]) && Text(fs, [f]) == Locs(f, fs[f].lines)
    {
      assert [f][1..] == [];
    }
    if a == [] {
      assert a + b == b;
    } else {
      assert (a + b)[1..] == a[1..] + b;
      TextInOrder(fs, a[1..], b);
    }
  }

  /** The files of a directory in readdir order, directories left out. */
  lemma {:induction false} ItemsInOrder(dir: string, a: seq<DirItem>, b: seq<DirItem>)
    ensures Items(dir, a + b) == Items(dir, a) + Items(dir, b)
  {
    if b == [] {
      assert a + b == a;
    } else {
      var n := |b| - 1;
      ItemsInOrder(dir, a, b[..n]);
      assert (a + b)[..|a + b| - 1] == a + b[..n];
      var last := if b[n].isDir then [] else [dir + "/" + b[n].name];
      assert Items(dir, a) + (Items(dir, b[..n]) + last) == Items(dir, a) + Items(dir, b[..n]) + last;
    }
  }

  lemma OneItem(dir: string, x: DirItem)
    ensures Items(dir, [x]) == if x.isDir then [] else [dir + "/" + x.name]
  {
    assert [x][..0] == [];
  }

  // ---------------------------------------------------------------------------
  // Circular directories
  // ---------------------------------------------------------------------------

  ghost predicate IsDirectory(fs: FileSystem, name: string) {
    name in fs && fs[name].Dir? && Readable(fs, Files(fs, name))
  }

  ghost function DirText(fs: FileSystem, name: string): seq<Loc>
    requires IsDirectory(fs, name)
  {
    Text(fs, Files(fs, name))
  }

  /** The group being read after a line that is not an include, or None if the line stops the reader. */
  ghost function Fed(bad: Group -> bool, g: Option<Group>, l: Loc): Option<Option<Group>> {
    var rd := FeedLine(Reader([], g, 0, false), bad, l);
    if Running(rd) then Some(rd.grp) else None
  }

  /** The group being read after these lines, read with group g open, or None if they stop the reader or include
      anything but readable directories, at most depth deep. Such lines can be read any number of times: they enter no
      name that is looked up later. */
  ghost function Through(fs: FileSystem, bad: Group -> bool, lines: seq<Loc>, g: Option<Group>, depth: nat): Option<Option<Group>>
    decreases depth, |lines|
  {
    hide KindOf, Fed;
    if lines == [] then Some(g)
    else
      var k := KindOf(lines[0].line);
      var after :=
        if !k.Include? then Fed(bad, g, lines[0])
        else if depth > 0 && IsDirectory(fs, k.name) then Through(fs, bad, DirText(fs, k.name), g, depth - 1)
        else None;
      if after.None? then None else Through(fs, bad, lines[1..], after.value, depth)
  }

  /** A directory included while a group is open. */
  datatype Visit = Visit(dir: string, grp: Option<Group>)

  ghost predicate Includes(loop: iset<Visit>, l: Loc, g: Option<Group>) {
    KindOf(l.line).Include? && Visit(KindOf(l.line).name, g) in loop
  }

  ghost predicate DoomedAt(fs: FileSystem, bad: Group -> bool, loop: iset<Visit>, lines: seq<Loc>, g: Option<Group>,
    i: nat, depth: nat)
  {
    && i < |lines|
    && var t := Through(fs, bad, lines[..i], g, depth);
       t.Some? && Includes(loop, lines[i], t.value)
  }

  /** After lines that can be read again and again comes a visit of the loop. */
  ghost predicate Doomed(fs: FileSystem, bad: Group -> bool, loop: iset<Visit>, lines: seq<Loc>, g: Option<Group>) {
    exists i: nat, depth: nat :: DoomedAt(fs, bad, loop, lines, g, i, depth)
  }

  /** Visits that lead from one to the next for ever. */
  ghost predicate Circular(fs: FileSystem, bad: Group -> bool, loop: iset<Visit>) {
    forall v :: v in loop ==> IsDirectory(fs, v.dir) && Doomed(fs, bad, loop, DirText(fs, v.dir), v.grp)
  }

  lemma {:induction false} ThroughDeeper(fs: FileSystem, bad: Group -> bool, lines: seq<Loc>, g: Option<Group>, depth: nat, deeper: nat)
    requires Through(fs, bad, lines, g, depth).Some? && depth <= deeper
    ensures Through(fs, bad, lines, g, deeper) == Through(fs, bad, lines, g, depth)
    decreases depth, |lines|
  {
    hide KindOf, Fed, DirText, IsDirectory;
    if lines != [] {
      var k := KindOf(lines[0].line);
      if k.Include? {
        ThroughDeeper(fs, bad, DirText(fs, k.name), g, depth - 1, deeper - 1);
        ThroughDeeper(fs, bad, lines[1..], Through(fs, bad, DirText(fs, k.name), g, depth - 1).value, depth, deeper);
      } else {
        ThroughDeeper(fs, bad, lines[1..], Fed(bad, g, lines[0]).value, depth, deeper);
      }
    }
  }

  lemma {:induction false} ThroughAppend(fs: FileSystem, bad: Group -> bool, a: seq<Loc>, b: seq<Loc>, g: Option<Group>, depth: nat)
    requires Through(fs, bad, a, g, depth).Some?
    ensures Through(fs, bad, a + b, g, depth) == Through(fs, bad, b, Through(fs, bad, a, g, depth).value, depth)
    decreases |a|
  {
    hide KindOf, Fed, DirText, IsDirectory;
    if a == [] {
      assert a + b == b;
    } else {
      assert (a + b)[1..] == a[1..] + b && (a + b)[0] == a[0];
      var k := KindOf(a[0].line);
      var after := if k.Include? then Through(fs, bad, DirText(fs, k.name), g, depth - 1) else Fed(bad, g, a[0]);
      ThroughAppend(fs, bad, a[1..], b, after.value, depth);
    }
  }

  /** Only the open group decides how a line is taken. */
  lemma FedIs(rd: Reader, bad: Group -> bool, l: Loc)
    requires Running(rd)
    ensures Running(FeedLine(rd, bad, l)) <==> Fed(bad, rd.grp, l).Some?
    ensures Running(FeedLine(rd, bad, l)) ==> Fed(bad, rd.grp, l) == Some(FeedLine(rd, bad, l).grp)
  {
    hide KindOf;
  }

  /** Only files are ever entered on the stack. */
  ghost predicate OnlyFiles(fs: FileSystem, stack: set<string>) { forall x :: x in stack ==> x in fs && fs[x].File? }

  lemma FollowsDirectory(fs: FileSystem, stack: set<string>, l: Loc)
    requires OnlyFiles(fs, stack) && KindOf(l.line).Include? && IsDirectory(fs, KindOf(l.line).name)
    ensures Follows(fs, stack, l) && TextOf(fs, l) == DirText(fs, KindOf(l.line).name)
    ensures OnlyFiles(fs, stack + Names(FilesOf(fs, l)))
  {
    hide KindOf, Text, Files;
  }

  lemma DoomBeforeMore(fs: FileSystem, bad: Group -> bool, loop: iset<Visit>, lines: seq<Loc>, g: Option<Group>, more: seq<Loc>)
    requires Doomed(fs, bad, loop, lines, g)
    ensures Doomed(fs, bad, loop, lines + more, g)
  {
    hide KindOf, Through, Includes;
    var i: nat, depth: nat :| DoomedAt(fs, bad, loop, lines, g, i, depth);
    assert (lines + more)[..i] == lines[..i] && (lines + more)[i] == lines[i];
    assert DoomedAt(fs, bad, loop, lines + more, g, i, depth);
  }

  /** The first line off a doomed list, and what it is replaced by. */
  lemma DoomMoves(fs: FileSystem, bad: Group -> bool, loop: iset<Visit>, lines: seq<Loc>, g: Option<Group>, i: nat, depth: nat,
    front: seq<Loc>, g': Option<Group>)
    requires DoomedAt(fs, bad, loop, lines, g, i, depth) && i > 0
    requires Through(fs, bad, front, g', depth).Some?
    requires Through(fs, bad, lines[..i], g, depth) ==
             Through(fs, bad, lines[1..i], Through(fs, bad, front, g', depth).value, depth)
    ensures Doomed(fs, bad, loop, front + lines[1..], g')
  {
    hide KindOf, Through, Includes;
    ThroughAppend(fs, bad, front, lines[1..i], g', depth);
    var j := |front| + i - 1;
    var whole := front + lines[1..];
    assert whole[..j] == front + lines[1..i] && whole[j] == lines[i];
    assert DoomedAt(fs, bad, loop, whole, g', j, depth);
  }

  ghost predicate DoomedWork(fs: FileSystem, bad: Group -> bool, loop: iset<Visit>, w: Work) {
    Doomed(fs, bad, loop, w.lines, w.rd.grp) && Running(w.rd) && OnlyFiles(fs, w.stack)
  }

  /** The doom is at the first line: the directory is entered. */
  lemma DoomEnters(fs: FileSystem, bad: Group -> bool, loop: iset<Visit>, w: Work)
    requires Circular(fs, bad, loop) && Running(w.rd) && OnlyFiles(fs, w.stack)
    requires w.lines != [] && Includes(loop, w.lines[0], w.rd.grp)
    ensures DoomedWork(fs, bad, loop, NextWork(fs, bad, w))
  {
    hide KindOf, DirText, OnlyFiles, IsDirectory, Follows, TextOf, FilesOf, Doomed;
    var name := KindOf(w.lines[0].line).name;
    assert Visit(name, w.rd.grp) in loop;
    FollowsDirectory(fs, w.stack, w.lines[0]);
    FollowIs(fs, bad, w);
    DoomBeforeMore(fs, bad, loop, DirText(fs, name), w.rd.grp, w.lines[1..]);
  }

  /** It is further on: the first line is read, or replaced by the lines of its directory. */
  lemma DoomApproaches(fs: FileSystem, bad: Group -> bool, loop: iset<Visit>, w: Work, i: nat, depth: nat)
    requires DoomedAt(fs, bad, loop, w.lines, w.rd.grp, i, depth) && i > 0 && Running(w.rd) && OnlyFiles(fs, w.stack)
    ensures DoomedWork(fs, bad, loop, NextWork(fs, bad, w))
  {
    hide KindOf, DirText, FeedLine, OnlyFiles, IsDirectory, Fed, Follows, TextOf, FilesOf, Doomed, Includes;
    var l, k := w.lines[0], KindOf(w.lines[0].line);
    assert w.lines[..i][0] == l && w.lines[..i][1..] == w.lines[1..i];
    if k.Include? {
      FollowsDirectory(fs, w.stack, l);
      FollowIs(fs, bad, w);
      var t := DirText(fs, k.name);
      ThroughDeeper(fs, bad, t, w.rd.grp, depth - 1, depth);
      DoomMoves(fs, bad, loop, w.lines, w.rd.grp, i, depth, t, w.rd.grp);
    } else {
      FedIs(w.rd, bad, l);
      FeedIs(fs, bad, w);
      DoomMoves(fs, bad, loop, w.lines, w.rd.grp, i, depth, [], FeedLine(w.rd, bad, l).grp);
      assert [] + w.lines[1..] == w.lines[1..];
    }
  }

  /** Doom is not averted by a round of the loop, and nothing stops it. */
  lemma DoomPersists(fs: FileSystem, bad: Group -> bool, loop: iset<Visit>, w: Work)
    requires Circular(fs, bad, loop) && DoomedWork(fs, bad, loop, w)
    ensures !Stopped(w) && DoomedWork(fs, bad, loop, NextWork(fs, bad, w))
  {
    hide KindOf, Circular, OnlyFiles, Includes, NextWork;
    var i: nat, depth: nat :| DoomedAt(fs, bad, loop, w.lines, w.rd.grp, i, depth);
    if i == 0 {
      assert w.lines[..0] == [];
      DoomEnters(fs, bad, loop, w);
    } else {
      DoomApproaches(fs, bad, loop, w, i, depth);
    }
  }

  /** Once doomed, cfg_read never stops: no error, no panic, and always another line, however many rounds it makes. */
  lemma {:induction false} DirectoryLoops(fs: FileSystem, bad: Group -> bool, loop: iset<Visit>, n: nat, w: Work)
    requires Circular(fs, bad, loop) && DoomedWork(fs, bad, loop, w)
    ensures !Stopped(WorkAfter(fs, bad, n, w))
    decreases n
  {
    hide KindOf, Circular, DoomedWork, NextWork;
    DoomPersists(fs, bad, loop, w);
    if n > 0 {
      DirectoryLoops(fs, bad, loop, n - 1, NextWork(fs, bad, w));
    }
  }

  /** Circular visits cannot be ranked. */
  lemma {:induction false} CircularNotRanked(fs: FileSystem, rank: string -> nat, bad: Group -> bool, loop: iset<Visit>, v: Visit, bound: nat)
    requires Circular(fs, bad, loop) && v in loop && forall f :: f in Files(fs, v.dir) ==> rank(f) < bound
    ensures !Ranked(fs, rank)
    decreases bound
  {
    hide KindOf, Text, Files, Through;
    if Ranked(fs, rank) {
      var files := Files(fs, v.dir);
      var t := DirText(fs, v.dir);
      TextFromFiles(fs, files);
      var i: nat, depth: nat :| DoomedAt(fs, bad, loop, t, v.grp, i, depth);
      var next := Visit(KindOf(t[i].line).name, Through(fs, bad, t[..i], v.grp, depth).value);
      assert IsDirectory(fs, next.dir) && IncludesDir(fs, t[i].line);
      assert t[i].file in files;
      CircularNotRanked(fs, rank, bad, loop, next, rank(t[i].file));
    }
  }

  // ---------------------------------------------------------------------------
  // Why nothing else loops
  // ---------------------------------------------------------------------------

  ghost predicate Endless(fs: FileSystem, bad: Group -> bool, w: Work) {
    forall n: nat :: !Stopped(WorkAfter(fs, bad, n, w))
  }

  lemma {:induction false} WorkStep(fs: FileSystem, bad: Group -> bool, n: nat, w: Work)
    requires !Stopped(WorkAfter(fs, bad, n, w))
    ensures WorkAfter(fs, bad, n + 1, w) == NextWork(fs, bad, WorkAfter(fs, bad, n, w))
  {
    hide NextWork, Stopped;
    if n > 0 {
      WorkStep(fs, bad, n - 1, NextWork(fs, bad, w));
    } else {
      assert WorkAfter(fs, bad, 0, NextWork(fs, bad, w)) == NextWork(fs, bad, w);
    }
  }

  lemma {:induction false} WorkJoin(fs: FileSystem, bad: Group -> bool, m: nat, n: nat, w: Work)
    ensures WorkAfter(fs, bad, m, WorkAfter(fs, bad, n, w)) == WorkAfter(fs, bad, n + m, w)
    decreases n
  {
    hide NextWork, Stopped;
    if n > 0 && !Stopped(w) {
      WorkJoin(fs, bad, m, n - 1, NextWork(fs, bad, w));
    }
  }

  /** A sequence of numbers has a least element from n on. */
  lemma {:induction false} LeastFrom(f: nat -> nat, n: nat, candidate: nat) returns (m: nat)
    requires n <= candidate
    ensures n <= m && forall k: nat :: n <= k ==> f(m) <= f(k)
    decreases f(candidate)
  {
    if k: nat :| n <= k && f(k) < f(candidate) {
      m := LeastFrom(f, n, k);
    } else {
      m := candidate;
    }
  }

  ghost function Unentered(fs: FileSystem, w: Work): nat { |fs.Keys - w.stack| }

  /** A round never takes names off the stack, and following a plain file enters a new one. */
  lemma RoundEnters(fs: FileSystem, bad: Group -> bool, w: Work)
    requires !Stopped(w)
    ensures Unentered(fs, NextWork(fs, bad, w)) <= Unentered(fs, w)
    ensures Follows(fs, w.stack, w.lines[0]) && !IsDirectory(fs, KindOf(w.lines[0].line).name) ==>
              Unentered(fs, NextWork(fs, bad, w)) < Unentered(fs, w)
  {
    hide KindOf, FeedLine, Text;
    var v := NextWork(fs, bad, w);
    Shrinks(fs.Keys, w.stack, v.stack);
    if Follows(fs, w.stack, w.lines[0]) && !IsDirectory(fs, KindOf(w.lines[0].line).name) {
      var name := KindOf(w.lines[0].line).name;
      assert FilesOf(fs, w.lines[0]) == [name];
      assert [name][0] == name;
      assert name in fs.Keys - w.stack && name !in fs.Keys - v.stack;
    }
  }

  lemma {:induction false} EntersMore(fs: FileSystem, bad: Group -> bool, w: Work, m: nat, n: nat)
    requires m <= n
    ensures Unentered(fs, WorkAfter(fs, bad, n, w)) <= Unentered(fs, WorkAfter(fs, bad, m, w))
    decreases n
  {
    hide NextWork, Unentered;
    if m < n {
      EntersMore(fs, bad, w, m, n - 1);
      var u := WorkAfter(fs, bad, n - 1, w);
      if Stopped(u) {
        StopsOnce(fs, bad, n - 1, n, w);
      } else {
        WorkStep(fs, bad, n - 1, w);
        RoundEnters(fs, bad, u);
      }
    }
  }

  ghost predicate HeadIsDirectory(fs: FileSystem, w: Work) {
    w.lines != [] && KindOf(w.lines[0].line).Include? ==> IsDirectory(fs, KindOf(w.lines[0].line).name)
  }

  /** From here on only directories are included. */
  ghost predicate Repeating(fs: FileSystem, bad: Group -> bool, w: Work) {
    Endless(fs, bad, w) && forall n: nat :: HeadIsDirectory(fs, WorkAfter(fs, bad, n, w))
  }

  /** An endless run comes to repeat itself, because the stack is finite. */
  lemma EndlessRepeats(fs: FileSystem, bad: Group -> bool, w: Work) returns (n: nat)
    requires Endless(fs, bad, w)
    ensures Repeating(fs, bad, WorkAfter(fs, bad, n, w))
  {
    hide KindOf, NextWork, Unentered, HeadIsDirectory, Stopped;
    var f := (k: nat) => Unentered(fs, WorkAfter(fs, bad, k, w));
    n := LeastFrom(f, 0, 0);
    var v := WorkAfter(fs, bad, n, w);
    forall k: nat
      ensures !Stopped(WorkAfter(fs, bad, k, v)) && HeadIsDirectory(fs, WorkAfter(fs, bad, k, v))
    {
      WorkJoin(fs, bad, k, n, w);
      var u := WorkAfter(fs, bad, n + k, w);
      EntersMore(fs, bad, w, n, n + k);
      WorkStep(fs, bad, n + k, w);
      assert !Stopped(WorkAfter(fs, bad, n + k + 1, w));
      assert f(n) <= f(n + k + 1);
      NoNewFile(fs, bad, u);
    }
  }

  lemma NoNewFile(fs: FileSystem, bad: Group -> bool, u: Work)
    requires !Stopped(u) && !Stopped(NextWork(fs, bad, u)) && Unentered(fs, u) <= Unentered(fs, NextWork(fs, bad, u))
    ensures HeadIsDirectory(fs, u)
  {
    hide KindOf, Unentered, FeedLine, IsDirectory, Text;
    RoundEnters(fs, bad, u);
  }

  /** The n-th round of a repeating run. */
  lemma Round(fs: FileSystem, bad: Group -> bool, w: Work, n: nat)
    requires Repeating(fs, bad, w)
    ensures var a, b := WorkAfter(fs, bad, n, w), WorkAfter(fs, bad, n + 1, w);
            && a.lines != []
            && var k := KindOf(a.lines[0].line);
               if k.Include? then
                 IsDirectory(fs, k.name) && b.lines == DirText(fs, k.name) + a.lines[1..] && b.rd.grp == a.rd.grp
               else b.lines == a.lines[1..] && Fed(bad, a.rd.grp, a.lines[0]) == Some(b.rd.grp)
  {
    hide KindOf, FeedLine, Fed, Text;
    var a := WorkAfter(fs, bad, n, w);
    assert !Stopped(a) && HeadIsDirectory(fs, a);
    WorkStep(fs, bad, n, w);
    assert !Stopped(WorkAfter(fs, bad, n + 1, w));
    if !KindOf(a.lines[0].line).Include? {
      FedIs(a.rd, bad, a.lines[0]);
    }
  }

  ghost function LinesAt(fs: FileSystem, bad: Group -> bool, w: Work, n: nat): seq<Loc> { WorkAfter(fs, bad, n, w).lines }

  ghost function LengthAt(fs: FileSystem, bad: Group -> bool, w: Work, n: nat): nat { |LinesAt(fs, bad, w, n)| }

  ghost function GroupAt(fs: FileSystem, bad: Group -> bool, w: Work, n: nat): Option<Group> { WorkAfter(fs, bad, n, w).rd.grp }

  /** The first round from n on at which at most r lines are left. */
  lemma {:induction false} FirstDown(fs: FileSystem, bad: Group -> bool, w: Work, n: nat, k: nat, r: nat) returns (j: nat)
    requires Repeating(fs, bad, w) && n <= k && |LinesAt(fs, bad, w, k)| <= r
    ensures n <= j <= k && |LinesAt(fs, bad, w, j)| <= r && (j == n || |LinesAt(fs, bad, w, j)| == r)
    ensures forall i: nat :: n <= i < j ==> |LinesAt(fs, bad, w, i)| > r
    decreases k - n
  {
    hide WorkAfter, Repeating;
    if |LinesAt(fs, bad, w, n)| <= r {
      j := n;
    } else {
      Round(fs, bad, w, n);
      j := FirstDown(fs, bad, w, n + 1, k, r);
    }
  }

  /** Lines a in front of the rest are used up between rounds n and j: they can be read again and again. */
  lemma {:induction false} Consumed(fs: FileSystem, bad: Group -> bool, w: Work, n: nat, j: nat, a: seq<Loc>, rest: seq<Loc>)
    returns (depth: nat)
    requires Repeating(fs, bad, w) && n <= j && LinesAt(fs, bad, w, n) == a + rest
    requires |LinesAt(fs, bad, w, j)| <= |rest| && forall k: nat :: n <= k < j ==> |LinesAt(fs, bad, w, k)| > |rest|
    ensures LinesAt(fs, bad, w, j) == rest
    ensures Through(fs, bad, a, GroupAt(fs, bad, w, n), depth) == Some(GroupAt(fs, bad, w, j))
    decreases j - n
  {
    hide WorkAfter, Repeating, KindOf, Fed, DirText, IsDirectory;
    if a == [] {
      assert a + rest == rest;
      depth := 0;
    } else {
      Round(fs, bad, w, n);
      var k := KindOf(a[0].line);
      assert (a + rest)[0] == a[0] && (a + rest)[1..] == a[1..] + rest;
      if k.Include? {
        var f := DirText(fs, k.name);
        var after := a[1..] + rest;
        var m := FirstDown(fs, bad, w, n + 1, j, |after|);
        var inner := Consumed(fs, bad, w, n + 1, m, f, after);
        var outer := Consumed(fs, bad, w, m, j, a[1..], rest);
        depth := if inner + 1 > outer then inner + 1 else outer;
        ThroughDeeper(fs, bad, f, GroupAt(fs, bad, w, n + 1), inner, depth - 1);
        ThroughDeeper(fs, bad, a[1..], GroupAt(fs, bad, w, m), outer, depth);
      } else {
        depth := Consumed(fs, bad, w, n + 1, j, a[1..], rest);
      }
    }
  }

  /** From this round on the list is never shorter. */
  ghost predicate Low(fs: FileSystem, bad: Group -> bool, w: Work, m: nat) {
    forall k: nat :: m <= k ==> |LinesAt(fs, bad, w, m)| <= |LinesAt(fs, bad, w, k)|
  }

  lemma {:induction false} FirstLow(fs: FileSystem, bad: Group -> bool, w: Work, n: nat, found: nat) returns (m: nat)
    requires n <= found && Low(fs, bad, w, found)
    ensures n <= m && Low(fs, bad, w, m) && forall k: nat :: n <= k < m ==> !Low(fs, bad, w, k)
    decreases found - n
  {
    hide Low;
    if Low(fs, bad, w, n) {
      m := n;
    } else {
      m := FirstLow(fs, bad, w, n + 1, found);
    }
  }

  lemma NextLow(fs: FileSystem, bad: Group -> bool, w: Work, n: nat) returns (m: nat)
    ensures n <= m && Low(fs, bad, w, m) && forall k: nat :: n <= k < m ==> !Low(fs, bad, w, k)
  {
    var f := (k: nat) => LengthAt(fs, bad, w, k);
    var found := LeastFrom(f, n, n);
    forall k: nat | found <= k
      ensures |LinesAt(fs, bad, w, found)| <= |LinesAt(fs, bad, w, k)|
    {
      assert f(found) <= f(k);
    }
    m := FirstLow(fs, bad, w, n, found);
  }

  /** Lines a, the rest of which is never reached: the next low round is at one of them, and those before it can be
      read again and again. */
  lemma {:induction false} Descent(fs: FileSystem, bad: Group -> bool, w: Work, n: nat, m: nat, a: seq<Loc>, rest: seq<Loc>)
    returns (i: nat, depth: nat)
    requires Repeating(fs, bad, w) && n <= m && LinesAt(fs, bad, w, n) == a + rest
    requires Low(fs, bad, w, m) && forall k: nat :: n <= k < m ==> !Low(fs, bad, w, k)
    requires forall k: nat :: n <= k ==> |LinesAt(fs, bad, w, k)| > |rest|
    ensures i < |a| && LinesAt(fs, bad, w, m) == a[i..] + rest
    ensures Through(fs, bad, a[..i], GroupAt(fs, bad, w, n), depth) == Some(GroupAt(fs, bad, w, m))
    decreases m - n
  {
    hide WorkAfter, Repeating, KindOf, Fed, DirText, IsDirectory, LinesAt, GroupAt;
    assert a != [] by {
      assert a == [] ==> a + rest == rest;
    }
    if n == m {
      i, depth := 0, 0;
      assert a[..0] == [] && a[0..] == a;
    } else {
      LineRound(fs, bad, w, n);
      var k := KindOf(a[0].line);
      assert (a + rest)[0] == a[0] && (a + rest)[1..] == a[1..] + rest;
      var next := n + 1;
      var inner := 0;
      if k.Include? {
        var after := a[1..] + rest;
        var short := Shorter(fs, bad, w, n);
        next := FirstDown(fs, bad, w, n + 1, short, |after|);
        assert next <= m;
        inner := Consumed(fs, bad, w, n + 1, next, DirText(fs, k.name), after);
      }
      var j, outer := Descent(fs, bad, w, next, m, a[1..], rest);
      i := j + 1;
      depth := if inner + 1 > outer then inner + 1 else outer;
      assert a[1..][j..] == a[i..] && a[..i][1..] == a[1..][..j] && a[..i][0] == a[0];
      ThroughDeeper(fs, bad, a[1..][..j], GroupAt(fs, bad, w, next), outer, depth);
      if k.Include? {
        ThroughDeeper(fs, bad, DirText(fs, k.name), GroupAt(fs, bad, w, n + 1), inner, depth - 1);
      }
    }
  }

  lemma LineRound(fs: FileSystem, bad: Group -> bool, w: Work, n: nat)
    requires Repeating(fs, bad, w)
    ensures var a, b := LinesAt(fs, bad, w, n), LinesAt(fs, bad, w, n + 1);
            && a != []
            && var k := KindOf(a[0].line);
               if k.Include? then
                 IsDirectory(fs, k.name) && b == DirText(fs, k.name) + a[1..] && GroupAt(fs, bad, w, n + 1) == GroupAt(fs, bad, w, n)
               else b == a[1..] && Fed(bad, GroupAt(fs, bad, w, n), a[0]) == Some(GroupAt(fs, bad, w, n + 1))
  {
    hide WorkAfter, Repeating, KindOf, Fed, DirText, IsDirectory;
    Round(fs, bad, w, n);
  }

  lemma Shorter(fs: FileSystem, bad: Group -> bool, w: Work, n: nat) returns (k: nat)
    requires !Low(fs, bad, w, n)
    ensures n < k && |LinesAt(fs, bad, w, k)| < |LinesAt(fs, bad, w, n)|
  {
    hide LinesAt;
    var j: nat :| n <= j && !(|LinesAt(fs, bad, w, n)| <= |LinesAt(fs, bad, w, j)|);
    k := j;
  }

  /** What is included at the low rounds of a repeating run. */
  ghost function LowVisits(fs: FileSystem, bad: Group -> bool, w: Work): iset<Visit> {
    iset m: nat | Low(fs, bad, w, m) && LinesAt(fs, bad, w, m) != [] && KindOf(LinesAt(fs, bad, w, m)[0].line).Include? ::
      Visit(KindOf(LinesAt(fs, bad, w, m)[0].line).name, GroupAt(fs, bad, w, m))
  }

  /** From any round on, with a rest that is never reached, there is doom. */
  lemma DoomAhead(fs: FileSystem, bad: Group -> bool, w: Work, n: nat, a: seq<Loc>, rest: seq<Loc>)
    requires Repeating(fs, bad, w) && LinesAt(fs, bad, w, n) == a + rest
    requires forall k: nat :: n <= k ==> |LinesAt(fs, bad, w, k)| > |rest|
    ensures Doomed(fs, bad, LowVisits(fs, bad, w), a, GroupAt(fs, bad, w, n))
  {
    hide WorkAfter, Repeating, KindOf, LinesAt, GroupAt, Through, Low;
    var m := NextLow(fs, bad, w, n);
    var i, depth := Descent(fs, bad, w, n, m, a, rest);
    LowIncludes(fs, bad, w, m);
    assert (a[i..] + rest)[0] == a[i];
    assert DoomedAt(fs, bad, LowVisits(fs, bad, w), a, GroupAt(fs, bad, w, n), i, depth);
  }

  lemma LowIncludes(fs: FileSystem, bad: Group -> bool, w: Work, m: nat)
    requires Repeating(fs, bad, w) && Low(fs, bad, w, m)
    ensures LinesAt(fs, bad, w, m) != [] && KindOf(LinesAt(fs, bad, w, m)[0].line).Include?
  {
    hide WorkAfter, Repeating, KindOf, LinesAt, GroupAt, Fed, DirText, IsDirectory;
    LineRound(fs, bad, w, m);
    assert |LinesAt(fs, bad, w, m)| <= |LinesAt(fs, bad, w, m + 1)|;
  }

  lemma LowVisitsCircular(fs: FileSystem, bad: Group -> bool, w: Work)
    requires Repeating(fs, bad, w)
    ensures Circular(fs, bad, LowVisits(fs, bad, w))
  {
    hide WorkAfter, Repeating, KindOf, LinesAt, GroupAt, Through, Doomed, DirText, IsDirectory, Fed;
    var loop := LowVisits(fs, bad, w);
    forall v | v in loop
      ensures IsDirectory(fs, v.dir) && Doomed(fs, bad, loop, DirText(fs, v.dir), v.grp)
    {
      var m: nat :| Low(fs, bad, w, m) && LinesAt(fs, bad, w, m) != [] && KindOf(LinesAt(fs, bad, w, m)[0].line).Include?
        && v == Visit(KindOf(LinesAt(fs, bad, w, m)[0].line).name, GroupAt(fs, bad, w, m));
      LineRound(fs, bad, w, m);
      DoomAhead(fs, bad, w, m + 1, DirText(fs, v.dir), LinesAt(fs, bad, w, m)[1..]);
    }
  }

  lemma {:induction false} StackHoldsFiles(fs: FileSystem, bad: Group -> bool, n: nat, w: Work)
    requires OnlyFiles(fs, w.stack)
    ensures OnlyFiles(fs, WorkAfter(fs, bad, n, w).stack)
    decreases n
  {
    hide KindOf, FeedLine, Text;
    if n > 0 && !Stopped(w) {
      StackHoldsFiles(fs, bad, n - 1, NextWork(fs, bad, w));
    }
  }

  ghost predicate DoomedAfter(fs: FileSystem, bad: Group -> bool, loop: iset<Visit>, n: nat, w: Work) {
    Circular(fs, bad, loop) && DoomedWork(fs, bad, loop, WorkAfter(fs, bad, n, w))
  }

  /** For every file system and every add_group: cfg_read does not end if and only if at some round it is doomed,
      that is, only lines that can be read again and again are between it and a circular visit. */
  lemma LoopsIff(fs: FileSystem, bad: Group -> bool, w: Work)
    requires OnlyFiles(fs, w.stack)
    ensures !Ends(fs, bad, w) <==>
            exists n: nat, loop: iset<Visit> :: DoomedAfter(fs, bad, loop, n, w)
  {
    hide KindOf, Circular, Doomed, OnlyFiles, NextWork;
    if n: nat, loop: iset<Visit> :| DoomedAfter(fs, bad, loop, n, w) {
      forall k: nat
        ensures !Stopped(WorkAfter(fs, bad, k, w))
      {
        if k <= n {
          DirectoryLoops(fs, bad, loop, 0, WorkAfter(fs, bad, n, w));
          if Stopped(WorkAfter(fs, bad, k, w)) {
            StopsOnce(fs, bad, k, n, w);
          }
        } else {
          DirectoryLoops(fs, bad, loop, k - n, WorkAfter(fs, bad, n, w));
          WorkJoin(fs, bad, k - n, n, w);
        }
      }
      assert !Ends(fs, bad, w);
    } else if !Ends(fs, bad, w) {
      assert Endless(fs, bad, w);
      var n := EndlessRepeats(fs, bad, w);
      var loop := RepeatingIsDoomed(fs, bad, n, w);
      assert DoomedAfter(fs, bad, loop, n, w);
    }
  }

  lemma RepeatingIsDoomed(fs: FileSystem, bad: Group -> bool, n: nat, w: Work) returns (loop: iset<Visit>)
    requires OnlyFiles(fs, w.stack) && Repeating(fs, bad, WorkAfter(fs, bad, n, w))
    ensures DoomedAfter(fs, bad, loop, n, w)
  {
    hide KindOf, Circular, Doomed, OnlyFiles, NextWork, LowVisits, HeadIsDirectory;
    var v := WorkAfter(fs, bad, n, w);
    StackHoldsFiles(fs, bad, n, w);
    LowVisitsCircular(fs, bad, v);
    assert forall k: nat :: !Stopped(WorkAfter(fs, bad, k, v));
    assert LinesAt(fs, bad, v, 0) == v.lines + [] && GroupAt(fs, bad, v, 0) == v.rd.grp;
    assert Running(v.rd) by {
      assert !Stopped(WorkAfter(fs, bad, 0, v));
    }
    DoomAhead(fs, bad, v, 0, v.lines, []);
    loop := LowVisits(fs, bad, v);
  }

  // ---------------------------------------------------------------------------
  // Examples
  // ---------------------------------------------------------------------------

  /** The lines of a directory of one file of up to two lines. */
  lemma OneFileText(fs: FileSystem, dir: string, item: string, lines: seq<string>)
    requires dir in fs && fs[dir] == Dir([DirItem(item, false)]) && 1 <= |lines| <= 2
    requires var f := dir + "/" + item; f in fs && fs[f] == File(lines)
    requires forall i :: 0 <= i < |lines| ==> !EndsInBackslash(lines[i])
    ensures IsDirectory(fs, dir) && Files(fs, dir) == [dir + "/" + item]
    ensures DirText(fs, dir) == Numbered(dir + "/" + item, lines) + [Loc(dir + "/" + item, |lines|, "\n")]
  {
    var f := dir + "/" + item;
    assert Items(dir, [DirItem(item, false)]) == [f] by {
      assert [DirItem(item, false)][..0] == [];
    }
    var rest := lines[1..];
    assert Join(rest) == rest by {
      assert |rest| == 1 ==> rest[0] == lines[1] && rest[1..] == [];
    }
    assert Join(lines) == [lines[0]] + rest == lines;
    assert Text(fs, [f][1..]) == [];
  }

  /** A main file that includes a directory whose one file includes it again: cfg_read does not end, whatever groups
      add_group refuses. */
  lemma SelfIncludingLoops(fs: FileSystem, bad: Group -> bool, main: string, dir: string, item: string, t: string)
    requires KindOf(t) == Include(dir) && !EndsInBackslash(t) && main in fs && fs[main] == File([t])
    requires dir in fs && fs[dir] == Dir([DirItem(item, false)])
    requires var f := dir + "/" + item; f in fs && fs[f] == File([t])
    ensures !Ends(fs, bad, Opening(fs, main))
  {
    hide KindOf, Doomed, Ends, Locs, DirText, Files;
    var loop := iset{Visit(dir, None)};
    OneFileText(fs, dir, item, [t]);
    DoomAtOnce(fs, bad, loop, DirText(fs, dir), None);
    assert Join([t]) == [t];
    MainLines(main, [t]);
    DoomAtOnce(fs, bad, loop, Locs(main, [t]), None);
    var w := Opening(fs, main);
    assert WorkAfter(fs, bad, 0, w) == w;
    assert DoomedAfter(fs, bad, loop, 0, w);
    LoopsIff(fs, bad, w);
  }

  lemma MainLines(main: string, lines: seq<string>)
    requires Join(lines) == lines != []
    ensures Locs(main, lines) != [] && Locs(main, lines)[0] == Loc(main, 1, lines[0])
  {
  }

  lemma DoomAtOnce(fs: FileSystem, bad: Group -> bool, loop: iset<Visit>, lines: seq<Loc>, g: Option<Group>)
    requires lines != [] && Includes(loop, lines[0], g)
    ensures Doomed(fs, bad, loop, lines, g)
  {
    hide KindOf, Includes;
    assert lines[..0] == [];
    assert DoomedAt(fs, bad, loop, lines, g, 0, 0);
  }

  /** Including one's own directory need not loop: if the file includes an empty plain file first, the second pass
      finds that file on the stack and panics. */
  lemma PanicsInstead(fs: FileSystem, bad: Group -> bool, main: string, dir: string, item: string, x: string, t: string, u: string)
    requires KindOf(t) == Include(dir) && KindOf(u) == Include(x) && !EndsInBackslash(t) && !EndsInBackslash(u)
    requires main in fs && fs[main] == File([t]) && x in fs && fs[x] == File([]) && x != main && x != dir + "/" + item
    requires dir in fs && fs[dir] == Dir([DirItem(item, false)])
    requires var f := dir + "/" + item; f in fs && fs[f] == File([u, t])
    ensures WorkAfter(fs, bad, 4, Opening(fs, main)).rd.panicked
  {
    hide KindOf, Locs, Files, Text;
    var f := dir + "/" + item;
    OneFileText(fs, dir, item, [u, t]);
    assert Join([t]) == [t];
    MainLines(main, [t]);
    var w0 := Opening(fs, main);
    var w1 := NextWork(fs, bad, w0);
    assert OnlyFiles(fs, w0.stack);
    FollowsDirectory(fs, w0.stack, w0.lines[0]);
    assert w1.lines[0] == Loc(f, 1, u) && w1.lines[1] == Loc(f, 2, t) && w1.stack == {main, f};
    var w2 := NextWork(fs, bad, w1);
    EmptyFile(fs, x);
    assert Follows(fs, w1.stack, w1.lines[0]) && w2.lines == w1.lines[1..] && w2.stack == {main, f, x};
    FollowsDirectory(fs, w2.stack, w2.lines[0]);
    var w3 := NextWork(fs, bad, w2);
    assert w3.lines[0] == Loc(f, 1, u) && x in w3.stack;
    var w4 := NextWork(fs, bad, w3);
    assert w4.rd.panicked;
    assert WorkAfter(fs, bad, 0, w4) == w4;
    assert WorkAfter(fs, bad, 2, w2) == WorkAfter(fs, bad, 1, w3) == WorkAfter(fs, bad, 0, w4);
    assert WorkAfter(fs, bad, 4, w0) == WorkAfter(fs, bad, 3, w1) == WorkAfter(fs, bad, 2, w2);
  }

  lemma EmptyFile(fs: FileSystem, x: string)
    requires x in fs && fs[x] == File([])
    ensures Files(fs, x) == [x] && Readable(fs, [x]) && Text(fs, [x]) == []
  {
    assert [x][1..] == [] && Join([]) == [];
  }

  /** Such lines exist. */
  lemma DirectoryLoopExample()
    ensures KindOf("include=d") == Include("d") && !EndsInBackslash("include=d")
  {
    var s := "include=d";
    assert Strip(s) == s;
    assert Find(s, '=', 0) == 7 by {
      assert Find(s, '=', 6) == Find(s, '=', 7) == 7;
      assert Find(s, '=', 4) == Find(s, '=', 5) == Find(s, '=', 6);
      assert Find(s, '=', 2) == Find(s, '=', 3) == Find(s, '=', 4);
    }
    assert "include" <= s;
    assert s[8..] == "d" && Value("d") == "d";
  }
}
