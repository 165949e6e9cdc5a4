/**
  `requirements_versions`: rewrite a requirements file so that every package
  line pins the version that is installed.

  The source file is read as text (`ReadLines` is Python's iteration over a
  text file), each line is sorted into one of five cases and turned into at
  most one entry, and the entries are written back one per line. The lookup
  of the installed version is the map `installed` from a package name to its
  version; a name missing from the map is a package that is not installed.
 */
module RequirementsVersions {
  import opened Wrappers
  import opened Text

  /** The five cases of a stripped requirements line. */
  datatype LineKind = Blank | Comment | Editable | PackageSpec(name: string) | EmptyName

  predicate IsBlank(line: string) {
    forall k :: 0 <= k < |line| ==> IsSpace(line[k])
  }

  predicate HasNewline(s: string) {
    exists k :: 0 <= k < |s| && s[k] == '\n'
  }

  /** A line as iterating over a text file yields it: '\n' only as its last character. */
  predicate IsFileLine(line: string) {
    forall k :: 0 <= k < |line| - 1 ==> line[k] != '\n'
  }

  /**
    Python's `for line in file`: the text cut after every '\n', each line
    keeping its terminator; a last line without one is yielded as it is.
   */
  function ReadLines(text: string): (lines: seq<string>)
    ensures forall i :: 0 <= i < |lines| ==> lines[i] != [] && IsFileLine(lines[i])
    ensures forall i :: 0 <= i < |lines| - 1 ==> EndsWith(lines[i], '\n')
    ensures Concat(lines) == text
    decreases |text|
  {
    if text == [] then []
    else
      var k := FindFrom(text, "\n", 0);
      if k == |text| then
        assert forall j :: 0 <= j < |text| ==> text[j] != '\n' by {
          forall j | 0 <= j < |text| ensures text[j] != '\n' {
            assert !OccursAt(text, "\n", j);
            assert text[j..j + 1] == [text[j]];
          }
        }
        [text]
      else
        assert text[k] == '\n' by { assert OccursAt(text, "\n", k); }
        assert forall j :: 0 <= j < k ==> text[j] != '\n' by {
          forall j | 0 <= j < k ensures text[j] != '\n' {
            assert !OccursAt(text, "\n", j);
            assert text[j..j + 1] == [text[j]];
          }
        }
        var rest := ReadLines(text[k + 1..]);
        assert text == text[..k + 1] + text[k + 1..];
        [text[..k + 1]] + rest
  }

  function Concat(lines: seq<string>): string {
    if lines == [] then [] else lines[0] + Concat(lines[1..])
  }

  /**
    A line's package name: the stripped part before the first "==",
    then before the first space, then before the first '#'.
   */
  function PackageName(clean: string): string {
    Strip(Before(Before(Before(clean, "=="), " "), "#"))
  }

  /** Which case a stripped line falls into, in the order the source tests them. */
  function Classify(clean: string): (kind: LineKind)
    ensures kind == Blank <==> clean == []
    ensures kind.PackageSpec? ==> kind.name != [] && !StartsWith(clean, "#") && !StartsWith(clean, "-e")
  {
    if clean == [] then Blank
    else if StartsWith(clean, "#") then Comment
    else if StartsWith(clean, "-e") then Editable
    else
      var name := PackageName(clean);
      if name != [] then PackageSpec(name) else EmptyName
  }

  /** The entry one line contributes, or None when the line is dropped. */
  function RewriteLine(line: string, installed: map<string, string>): Option<string> {
    var clean := Strip(line);
    match Classify(clean)
    case Blank => Some("")
    case Comment => Some(clean)
    case Editable => Some(clean)
    case PackageSpec(name) =>
      if name in installed then Some(name + "==" + installed[name]) else None
    case EmptyName => if EndsWith(clean, '#') then Some(clean) else None
  }

  /**
    A blank line gives the empty entry, a comment, editable or kept
    empty-name line gives the stripped line, a package line gives
    `name==version`; a line is dropped exactly when it names a package that
    is not installed, or has an empty name and does not end with '#'.
   */
  lemma RewriteLineCases(line: string, installed: map<string, string>)
    ensures var entry, clean := RewriteLine(line, installed), Strip(line);
      && (entry == Some("") <==> IsBlank(line))
      && (!IsBlank(line) && (StartsWith(clean, "#") || StartsWith(clean, "-e")) ==> entry == Some(clean))
      && (!IsBlank(line) && !StartsWith(clean, "#") && !StartsWith(clean, "-e") &&
          PackageName(clean) != [] && PackageName(clean) in installed ==>
        entry == Some(PackageName(clean) + "==" + installed[PackageName(clean)]))
      && (entry.Some? && entry.value != "" ==>
        entry.value == Strip(line)
        || (var name := PackageName(Strip(line));
            name != [] && name in installed && entry.value == name + "==" + installed[name]))
      && (entry.None? <==>
        !IsBlank(line) && !StartsWith(Strip(line), "#") && !StartsWith(Strip(line), "-e")
        && (var name := PackageName(Strip(line));
            if name != [] then name !in installed else !EndsWith(Strip(line), '#')))
  {
  }

  function Entries(entry: Option<string>): seq<string> {
    match entry
    case None => []
    case Some(e) => [e]
  }

  /** The entries of a whole file, line by line in input order. */
  function RewriteAll(lines: seq<string>, installed: map<string, string>): seq<string> {
    if lines == [] then []
    else Entries(RewriteLine(lines[0], installed)) + RewriteAll(lines[1..], installed)
  }

  /** The output file: every entry followed by a newline. */
  function Serialised(entries: seq<string>): string {
    if entries == [] then [] else entries[0] + "\n" + Serialised(entries[1..])
  }

  /** The text of the output file for a given source file. */
  function PinnedText(source: string, installed: map<string, string>): string {
    Serialised(RewriteAll(ReadLines(source), installed))
  }

  /**
    The body of the per-line loop: strip the line, then keep it, pin it or
    drop it, testing the cases in the source's order.
   */
  method PinLine(line: string, installed: map<string, string>) returns (entry: Option<string>)
    ensures entry == RewriteLine(line, installed)
  {
    var cleanLine := Strip(line);
    if cleanLine == [] {
      return Some("");
    }
    if StartsWith(cleanLine, "#") || StartsWith(cleanLine, "-e") {
      return Some(cleanLine);
    }
    var packagePart := PackageName(cleanLine);
    if packagePart != [] {
      if packagePart in installed {
        return Some(packagePart + "==" + installed[packagePart]);
      }
      return None;
    }
    if EndsWith(cleanLine, '#') {
      return Some(cleanLine);
    }
    return None;
  }

  /** The per-line loop: every line contributes its entry, if any, in input order. */
  method CollectRequirements(lines: seq<string>, installed: map<string, string>)
    returns (requirements: seq<string>)
    ensures requirements == RewriteAll(lines, installed)
  {
    requirements := [];
    for i := 0 to |lines|
      invariant requirements + RewriteAll(lines[i..], installed) == RewriteAll(lines, installed)
    {
      var entry := PinLine(lines[i], installed);
      RewriteAllStep(lines, i, installed);
      Associate(requirements, Entries(entry), RewriteAll(lines[i + 1..], installed));
      requirements := requirements + Entries(entry);
    }
  }

  lemma RewriteAllStep(lines: seq<string>, i: nat, installed: map<string, string>)
    requires i < |lines|
    ensures RewriteAll(lines[i..], installed)
      == Entries(RewriteLine(lines[i], installed)) + RewriteAll(lines[i + 1..], installed)
  {
    assert lines[i..][1..] == lines[i + 1..];
  }

  /** The writing loop over `requirements`: one line of output per entry. */
  method WriteRequirements(requirements: seq<string>) returns (output: string)
    ensures output == Serialised(requirements)
  {
    output := [];
    for i := 0 to |requirements|
      invariant output == Serialised(requirements[..i])
    {
      SerialisedAppend(requirements[..i], requirements[i]);
      assert requirements[..i + 1] == requirements[..i] + [requirements[i]];
      if requirements[i] == "" {
        assert requirements[i] + "\n" == "\n";
        output := output + "\n";
      } else {
        output := output + requirements[i] + "\n";
      }
    }
    assert requirements[..|requirements|] == requirements;
  }

  /** The whole function, with the two files as text and the installed versions as a map. */
  method PinRequirements(source: string, installed: map<string, string>) returns (output: string)
    ensures output == PinnedText(source, installed)
  {
    var requirements := CollectRequirements(ReadLines(source), installed);
    output := WriteRequirements(requirements);
  }

  /** Lines are rewritten independently of each other and their entries keep the input order. */
  lemma {:induction false} RewriteAllAppend(a: seq<string>, b: seq<string>, installed: map<string, string>)
    ensures RewriteAll(a + b, installed) == RewriteAll(a, installed) + RewriteAll(b, installed)
  {
    if a != [] {
      assert (a + b)[0] == a[0] && (a + b)[1..] == a[1..] + b;
      RewriteAllAppend(a[1..], b, installed);
      calc {
        RewriteAll(a + b, installed);
        Entries(RewriteLine(a[0], installed)) + RewriteAll(a[1..] + b, installed);
        Entries(RewriteLine(a[0], installed)) + (RewriteAll(a[1..], installed) + RewriteAll(b, installed));
      }
    } else {
      assert a + b == b;
    }
  }

  /** Every line contributes at most one entry. */
  lemma {:induction false} RewriteAllLength(lines: seq<string>, installed: map<string, string>)
    ensures |RewriteAll(lines, installed)| <= |lines|
  {
    if lines != [] {
      RewriteAllLength(lines[1..], installed);
    }
  }

  lemma {:induction false} SerialisedAppend(entries: seq<string>, e: string)
    ensures Serialised(entries + [e]) == Serialised(entries) + e + "\n"
  {
    if entries != [] {
      assert (entries + [e])[1..] == entries[1..] + [e];
      SerialisedAppend(entries[1..], e);
    }
  }

  /** Every entry followed by its newline: the lines of the output file. */
  function Terminated(entries: seq<string>): (lines: seq<string>)
    ensures |lines| == |entries|
    ensures forall i :: 0 <= i < |entries| ==> lines[i] == entries[i] + "\n"
  {
    if entries == [] then [] else [entries[0] + "\n"] + Terminated(entries[1..])
  }

  /**
    What pip's names and versions look like: a distribution name never ends
    with '=' and a version never contains whitespace.
   */
  predicate WellFormedInstalled(installed: map<string, string>) {
    forall name :: name in installed ==>
      !EndsWith(name, '=') && forall k :: 0 <= k < |installed[name]| ==> !IsSpace(installed[name][k])
  }

  /** A slice of a string that does not contain `pat` does not contain it either. */
  lemma SliceAvoids(s: string, lead: nat, r: string, pat: string)
    requires lead + |r| <= |s| && r == s[lead..lead + |r|]
    requires !Contains(s, pat)
    ensures !Contains(r, pat)
  {
    forall j | 0 <= j <= |r| && OccursAt(r, pat, j)
      ensures OccursAt(s, pat, lead + j)
    {
      forall i | j <= i < j + |pat| ensures r[i] == s[lead + i] {
        assert r[i] == s[lead..lead + |r|][i];
      }
      assert s[lead + j..lead + j + |pat|] == r[j..j + |pat|];
    }
  }

  /**
    The extracted package name contains no space, no '#' and no "==", does
    not start or end with whitespace, and is a prefix of the stripped line.
   */
  lemma PackageNameShape(clean: string)
    ensures var name := PackageName(clean);
      && !Contains(name, " ") && !Contains(name, "#") && !Contains(name, "==")
      && (name != [] ==> !IsSpace(name[0]) && !IsSpace(name[|name| - 1]))
      && (clean != [] && !IsSpace(clean[0]) ==> name <= clean)
  {
    var p3 := Before(Before(Before(clean, "=="), " "), "#");
    BeforeSeparators(clean);
    StripAvoids(p3, " ");
    StripAvoids(p3, "#");
    StripAvoids(p3, "==");
    StripBySpec(p3, IsSpace);
    if clean != [] && !IsSpace(clean[0]) && p3 != [] {
      assert p3[0] == clean[0];
      assert LeadingCount(p3, IsSpace) == 0;
    }
  }

  /** Stripping never brings in a pattern the string did not contain. */
  lemma StripAvoids(s: string, pat: string)
    requires !Contains(s, pat)
    ensures !Contains(Strip(s), pat)
  {
    StripBySpec(s, IsSpace);
    SliceAvoids(s, LeadingCount(s, IsSpace), Strip(s), pat);
  }

  /** The part of a line before its first "==", then its first space, then its first '#'. */
  lemma BeforeSeparators(clean: string)
    ensures var p := Before(Before(Before(clean, "=="), " "), "#");
      && !Contains(p, " ") && !Contains(p, "#") && !Contains(p, "==") && p <= clean
  {
    var p1 := Before(clean, "==");
    var p2 := Before(p1, " ");
    var p3 := Before(p2, "#");
    SliceAvoids(p1, 0, p2, "==");
    SliceAvoids(p2, 0, p3, "==");
    SliceAvoids(p2, 0, p3, " ");
  }

  /** Stripping a line read from a file leaves no newline in it. */
  lemma StrippedLineHasNoNewline(line: string)
    requires IsFileLine(line)
    ensures !HasNewline(Strip(line))
  {
    var r := Strip(line);
    var lead := LeadingCount(line, IsSpace);
    forall k | 0 <= k < |r| ensures r[k] != '\n' {
      assert r[k] == line[lead + k];
      if lead + k == |line| - 1 {
        assert k == |r| - 1;
      }
    }
  }

  /** A string that is already stripped is what `strip` returns for it followed by whitespace. */
  lemma StripIdentity(c: string, t: string)
    requires c == [] || (!IsSpace(c[0]) && !IsSpace(c[|c| - 1]))
    requires IsBlank(t)
    ensures Strip(c + t) == c
  {
    assert [] + c + t == c + t;
    StripByIdentity([], c, t, IsSpace);
  }

  /** `split(pat)[0]` of a string that does not contain `pat` is the string itself. */
  lemma BeforeAbsent(s: string, pat: string)
    requires pat != [] && !Contains(s, pat)
    ensures Before(s, pat) == s
  {
  }

  /** The first occurrence of `pat` in `s` is at `k`. */
  lemma FindFirst(s: string, pat: string, k: nat)
    requires pat != [] && OccursAt(s, pat, k)
    requires forall j :: 0 <= j < k ==> !OccursAt(s, pat, j)
    ensures FindFrom(s, pat, 0) == k && Before(s, pat) == s[..k]
  {
  }

  /** Pinning a line read from a file gives an entry that pinning maps to itself. */
  lemma RewriteLineFixedPoint(line: string, installed: map<string, string>)
    requires IsFileLine(line) && WellFormedInstalled(installed)
    requires RewriteLine(line, installed).Some?
    ensures !HasNewline(RewriteLine(line, installed).value)
    ensures RewriteLine(RewriteLine(line, installed).value + "\n", installed) == RewriteLine(line, installed)
  {
    var clean := Strip(line);
    StrippedLineHasNoNewline(line);
    assert IsBlank("\n");
    match Classify(clean)
    case Blank =>
      StripIdentity([], "\n");
    case Comment =>
      StripIdentity(clean, "\n");
    case Editable =>
      StripIdentity(clean, "\n");
    case EmptyName =>
      StripIdentity(clean, "\n");
    case PackageSpec(name) =>
      PinnedEntryFixedPoint(clean, installed);
  }

  /** The pinned entry `name==version` of a package line is read back as the same package. */
  lemma PinnedEntryFixedPoint(clean: string, installed: map<string, string>)
    requires Classify(clean).PackageSpec? && Classify(clean).name in installed
    requires !HasNewline(clean) && !IsSpace(clean[0])
    requires WellFormedInstalled(installed)
    ensures var name := Classify(clean).name;
      var e := name + "==" + installed[name];
      !HasNewline(e) && RewriteLine(e + "\n", installed) == Some(e)
  {
    var name := Classify(clean).name;
    PackageNameShape(clean);
    var version := installed[name];
    var e := name + "==" + version;
    forall k | 0 <= k < |e| ensures e[k] != '\n' {
      if k < |name| {
        assert e[k] == clean[k];
      } else if k >= |name| + 2 {
        assert e[k] == version[k - |name| - 2];
      }
    }
    assert IsBlank("\n");
    StripIdentity(e, "\n");
    EntryClassified(clean, name, version, e);
    assert Classify(e) == PackageSpec(name);
  }

  /** The stripped entry `name==version` is classified as a spec line for `name`. */
  lemma EntryClassified(clean: string, name: string, version: string, e: string)
    requires Classify(clean) == PackageSpec(name)
    requires clean != [] && !IsSpace(clean[0])
    requires !EndsWith(name, '=') && e == name + "==" + version
    ensures Classify(e) == PackageSpec(name)
  {
    PackageNameShape(clean);
    assert e[0] == clean[0];
    assert !StartsWith(e, "-e") by {
      if |name| >= 2 {
        assert e[..2] == clean[..2];
      } else {
        assert e[1] == '=';
      }
    }
    EntryName(name, version);
  }

  /** Reading `name==version` back gives the name `name` when `name` holds none of the separators. */
  lemma EntryName(name: string, version: string)
    requires name != [] && !EndsWith(name, '=')
    requires !Contains(name, " ") && !Contains(name, "#") && !Contains(name, "==")
    requires !IsSpace(name[0]) && !IsSpace(name[|name| - 1])
    ensures PackageName(name + "==" + version) == name
  {
    var e := name + "==" + version;
    forall j | 0 <= j < |name| ensures !OccursAt(e, "==", j) {
      if j + 2 <= |name| {
        assert e[j..j + 2] == name[j..j + 2];
        assert !OccursAt(name, "==", j);
      } else {
        assert e[j..j + 2] == [name[j], '='];
      }
    }
    assert e[|name|..|name| + 2] == "==";
    FindFirst(e, "==", |name|);
    assert e[..|name|] == name;
    BeforeAbsent(name, " ");
    BeforeAbsent(name, "#");
    assert IsBlank([]);
    StripIdentity(name, []);
    assert name + [] == name;
  }

  lemma {:induction false} TerminatedAppend(a: seq<string>, b: seq<string>)
    ensures Terminated(a + b) == Terminated(a) + Terminated(b)
  {
    assert |Terminated(a + b)| == |Terminated(a) + Terminated(b)|;
    forall i | 0 <= i < |a + b| ensures Terminated(a + b)[i] == (Terminated(a) + Terminated(b))[i] {
      if i < |a| {
        assert (a + b)[i] == a[i];
      } else {
        assert (a + b)[i] == b[i - |a|];
      }
    }
  }

  /** Reading the output file back gives one line per entry: the entry and its newline. */
  lemma {:induction false} ReadBack(entries: seq<string>)
    requires forall i :: 0 <= i < |entries| ==> !HasNewline(entries[i])
    ensures ReadLines(Serialised(entries)) == Terminated(entries)
  {
    if entries != [] {
      var e := entries[0];
      var rest := Serialised(entries[1..]);
      var text := Serialised(entries);
      assert text == e + "\n" + rest;
      forall j | 0 <= j < |e| ensures !OccursAt(text, "\n", j) {
        assert text[j..j + 1] == [e[j]];
      }
      assert text[|e|..|e| + 1] == "\n";
      FindFirst(text, "\n", |e|);
      assert text[..|e| + 1] == e + "\n";
      assert text[|e| + 1..] == rest;
      ReadBack(entries[1..]);
    }
  }

  /** The entries of a file, written out and pinned again, are the same entries. */
  lemma {:induction false} EntriesFixedPoint(lines: seq<string>, installed: map<string, string>)
    requires forall i :: 0 <= i < |lines| ==> IsFileLine(lines[i])
    requires WellFormedInstalled(installed)
    ensures forall i :: 0 <= i < |RewriteAll(lines, installed)| ==> !HasNewline(RewriteAll(lines, installed)[i])
    ensures RewriteAll(Terminated(RewriteAll(lines, installed)), installed) == RewriteAll(lines, installed)
  {
    if lines != [] {
      var head := Entries(RewriteLine(lines[0], installed));
      var tail := RewriteAll(lines[1..], installed);
      EntriesFixedPoint(lines[1..], installed);
      TerminatedAppend(head, tail);
      RewriteAllAppend(Terminated(head), Terminated(tail), installed);
      EntryFixedPoint(lines[0], installed);
    }
  }

  /** The entry of one line, written out and pinned again, is the same entry. */
  lemma EntryFixedPoint(line: string, installed: map<string, string>)
    requires IsFileLine(line) && WellFormedInstalled(installed)
    ensures var head := Entries(RewriteLine(line, installed));
      && (forall i :: 0 <= i < |head| ==> !HasNewline(head[i]))
      && RewriteAll(Terminated(head), installed) == head
  {
    var head := Entries(RewriteLine(line, installed));
    if RewriteLine(line, installed).Some? {
      RewriteLineFixedPoint(line, installed);
      var e := RewriteLine(line, installed).value;
      assert Terminated(head) == [e + "\n"];
      assert RewriteAll([e + "\n"], installed) == [e];
    } else {
      assert Terminated(head) == [];
    }
  }

  /** The output file has exactly one line per entry, in order. */
  lemma OutputLines(source: string, installed: map<string, string>)
    requires WellFormedInstalled(installed)
    ensures ReadLines(PinnedText(source, installed)) == Terminated(RewriteAll(ReadLines(source), installed))
  {
    EntriesFixedPoint(ReadLines(source), installed);
    ReadBack(RewriteAll(ReadLines(source), installed));
  }

  /** Pinning the pinned file again changes nothing. */
  lemma PinningIsIdempotent(source: string, installed: map<string, string>)
    requires WellFormedInstalled(installed)
    ensures PinnedText(PinnedText(source, installed), installed) == PinnedText(source, installed)
  {
    EntriesFixedPoint(ReadLines(source), installed);
    ReadBack(RewriteAll(ReadLines(source), installed));
  }
}
