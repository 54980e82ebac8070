/** The integrity index of a lockfile: one hash a package, or none where the file contradicts itself. */
module GraphIntegrity {
  import opened Options
  import opened Strings
  import opened Framing

  /** A line of the lockfile, as the three patterns read it: an unindented line, which opens the packages
      section or another; a package entry; a line stating an integrity; anything else. */
  datatype Line = Section(packages: bool) | Entry(raw: string) | Integrity(value: string) | Other

  // ---------- The patterns ----------

  predicate StartsWith(s: string, prefix: string) {
    |prefix| <= |s| && s[..|prefix|] == prefix
  }

  /** What a dot in a pattern does not match. */
  predicate IsBreak(c: char) {
    c == '\n' || c == '\r' || c == '\U{2028}' || c == '\U{2029}'
  }

  /** Two spaces, something, and a colon at the end. */
  predicate IsEntry(line: string) {
    && |line| >= 4 && line[..2] == "  " && !IsSpace(line[2]) && line[|line| - 1] == ':'
    && forall i :: 3 <= i < |line| - 1 ==> !IsBreak(line[i])
  }

  /** One quote at either end is dropped. */
  function Unquoted(raw: string): string {
    var bare := if StartsWith(raw, "'") then raw[1..] else raw;
    if bare != "" && bare[|bare| - 1] == '\'' then bare[..|bare| - 1] else bare
  }

  const RESOLUTION: string := "resolution:"
  const INTEGRITY: string := "{integrity:"

  /** Where a stated hash ends. */
  function UntilStop(s: string): (front: string)
    ensures |front| <= |s| && front == s[..|front|]
  {
    if s == "" || s[0] == ',' || s[0] == '}' then "" else [s[0]] + UntilStop(s[1..])
  }

  /** The pattern at this place: it needs something before the stop, if only blanks. */
  function IntegrityHere(s: string): Option<string> {
    if !StartsWith(s, RESOLUTION) then None
    else
      var after := TrimStart(s[|RESOLUTION|..]);
      if !StartsWith(after, INTEGRITY) then None
      else
        var found := UntilStop(after[|INTEGRITY|..]);
        if found == "" then None else Some(Trim(found))
  }

  /** The first place in the line where it matches. */
  function FindIntegrity(line: string): Option<string> {
    if IntegrityHere(line).Some? then IntegrityHere(line)
    else if line == "" then None
    else FindIntegrity(line[1..])
  }

  function ReadLine(line: string): Line {
    if line != "" && !IsSpace(line[0]) then Section(StartsWith(line, "packages:"))
    else if IsEntry(line) then Entry(Unquoted(line[2..|line| - 1]))
    else if FindIntegrity(line).Some? then Integrity(FindIntegrity(line).value)
    else Other
  }

  function AllLines(text: string): seq<string> {
    Lines(text) + [Rest(text)]
  }

  function Classified(lines: seq<string>): (r: seq<Line>)
    ensures |r| == |lines|
  {
    seq(|lines|, i requires 0 <= i < |lines| => ReadLine(lines[i]))
  }

  // ---------- The index ----------

  /** What stands before the first parenthesis. */
  function Base(raw: string): string {
    raw[..IndexOf(raw, '(')]
  }

  /** The package the n-th line belongs to, when it is inside the packages section. */
  function KeyAt(lines: seq<Line>, n: nat): Option<string>
    requires n <= |lines|
  {
    if n == 0 then None
    else
      match lines[n - 1]
      case Section(_) => None
      case Entry(raw) => if InPackages(lines, n - 1) then Some(Base(raw)) else KeyAt(lines, n - 1)
      case _ => KeyAt(lines, n - 1)
  }

  function InPackages(lines: seq<Line>, n: nat): bool
    requires n <= |lines|
  {
    if n == 0 then false
    else match lines[n - 1] case Section(packages) => packages case _ => InPackages(lines, n - 1)
  }

  /** The n-th line states this hash for this package. */
  predicate States(lines: seq<Line>, n: nat, key: string, value: string)
    requires n < |lines|
  {
    lines[n] == Integrity(value) && KeyAt(lines, n) == Some(key)
  }

  /** The first `n` lines state this hash for the package. */
  ghost predicate Stated(lines: seq<Line>, n: nat, key: string, value: string)
    requires n <= |lines|
  {
    exists m :: 0 <= m < n && States(lines, m, key, value)
  }

  lemma {:induction false} KeyMeansInside(lines: seq<Line>, n: nat)
    requires n <= |lines|
    ensures KeyAt(lines, n).Some? ==> InPackages(lines, n)
  {
    if n > 0 { KeyMeansInside(lines, n - 1); }
  }

  /** Reads the index: a package has an entry exactly when the file states one hash for it, however
      often, and then the entry is that hash. */
  method ReadIntegrityIndex(text: string) returns (index: map<string, string>)
    ensures
      var lines := Classified(AllLines(text));
      && (forall k :: k in index <==>
          exists v :: Stated(lines, |lines|, k, v) && forall w :: Stated(lines, |lines|, k, w) ==> w == v)
      && (forall k | k in index :: Stated(lines, |lines|, k, index[k]))
  {
    hide ReadLine, AllLines;
    index := ReadClassified(Classified(AllLines(text)));
  }

  method ReadClassified(lines: seq<Line>) returns (index: map<string, string>)
    ensures forall k :: k in index <==>
      exists v :: Stated(lines, |lines|, k, v) && forall w :: Stated(lines, |lines|, k, w) ==> w == v
    ensures forall k | k in index :: Stated(lines, |lines|, k, index[k])
  {
    index := map[];
    var ambiguous: set<string> := {};
    var inPackages := false;
    var currentKey: Option<string> := None;
    for n := 0 to |lines|
      invariant inPackages == InPackages(lines, n) && currentKey == KeyAt(lines, n)
      invariant Indexed(lines, n, index, ambiguous)
    {
      hide Indexed, KeyAt, InPackages;
      KeyMeansInside(lines, n);
      NextPlace(lines, n);
      IndexedNext(lines, n, index, ambiguous);
      match lines[n]
      case Section(packages) => inPackages, currentKey := packages, None;
      case Entry(raw) =>
        if inPackages {
          currentKey := Some(Base(raw));
        }
      case Other =>
      case Integrity(value) =>
        if currentKey.Some? {
          if currentKey.value in index && index[currentKey.value] != value {
            ambiguous := ambiguous + {currentKey.value};
          } else {
            index := index[currentKey.value := value];
          }
        }
    }
    ghost var collected := index;
    index := index - ambiguous;
    forall k ensures k in index <==>
      exists v :: Stated(lines, |lines|, k, v) && forall w :: Stated(lines, |lines|, k, w) ==> w == v
    {
      if k in index { assert Stated(lines, |lines|, k, collected[k]); }
    }
  }

  /** What the loop has learned: a stated hash for each package, and which packages had two. */
  ghost predicate Indexed(lines: seq<Line>, n: nat, index: map<string, string>, ambiguous: set<string>)
    requires n <= |lines|
  {
    && (forall k :: k in index <==> exists v :: Stated(lines, n, k, v))
    && (forall k | k in index :: Stated(lines, n, k, index[k]))
    && (forall k :: k in ambiguous <==> k in index && exists w :: Stated(lines, n, k, w) && w != index[k])
  }

  lemma StatedNext(lines: seq<Line>, n: nat, next: nat)
    requires n < |lines| && next == n + 1
    ensures forall k, v :: Stated(lines, next, k, v) <==> Stated(lines, n, k, v) || States(lines, n, k, v)
  {
  }

  lemma NextPlace(lines: seq<Line>, n: nat)
    requires n < |lines|
    ensures InPackages(lines, n + 1) == match lines[n] case Section(packages) => packages case _ => InPackages(lines, n)
    ensures KeyAt(lines, n + 1) == match lines[n]
      case Section(_) => None
      case Entry(raw) => if InPackages(lines, n) then Some(Base(raw)) else KeyAt(lines, n)
      case _ => KeyAt(lines, n)
  {
  }

  /** One line more: the hash it states, if it states one, is recorded or marks the package ambiguous. */
  lemma IndexedNext(lines: seq<Line>, n: nat, index: map<string, string>, ambiguous: set<string>)
    requires n < |lines| && Indexed(lines, n, index, ambiguous)
    ensures
      if lines[n].Integrity? && KeyAt(lines, n).Some? then
        var k, v := KeyAt(lines, n).value, lines[n].value;
        if k in index && index[k] != v then Indexed(lines, n + 1, index, ambiguous + {k})
        else Indexed(lines, n + 1, index[k := v], ambiguous)
      else Indexed(lines, n + 1, index, ambiguous)
  {
    hide KeyAt, Stated;
    var next := n + 1;
    StatedNext(lines, n, next);
    if lines[n].Integrity? && KeyAt(lines, n).Some? {
      var k, v := KeyAt(lines, n).value, lines[n].value;
      assert States(lines, n, k, v) && Stated(lines, next, k, v);
      if k in index {
        assert Stated(lines, next, k, index[k]);
      }
    } else {
      assert forall k, v :: Stated(lines, next, k, v) <==> Stated(lines, n, k, v);
    }
  }

  // ---------- A written lockfile reads back ----------

  /** A package entry as the file writes it: quoted or not, with a peer suffix or without, and its hash. */
  datatype Package = Package(key: string, suffix: string, quoted: bool, hash: string)

  predicate Plain(s: string) {
    forall i :: 0 <= i < |s| ==> !IsBreak(s[i])
  }

  ghost predicate Writable(p: Package) {
    && p.key != "" && !IsSpace(p.key[0]) && '(' !in p.key && Plain(p.key) && Plain(p.suffix)
    && (p.suffix == "" || p.suffix[0] == '(')
    && (!p.quoted ==> p.key[0] != '\'' && (p.key + p.suffix)[|p.key + p.suffix| - 1] != '\'')
    && p.hash != "" && !IsSpace(p.hash[0]) && !IsSpace(p.hash[|p.hash| - 1]) && Plain(p.hash)
    && ',' !in p.hash && '}' !in p.hash
  }

  function NameOf(p: Package): string {
    if p.quoted then "'" + (p.key + p.suffix) + "'" else p.key + p.suffix
  }

  function EntryLine(p: Package): string {
    "  " + NameOf(p) + ":"
  }

  function HashLine(p: Package): string {
    "    resolution: {integrity: " + p.hash + "}"
  }

  function PackagesText(packages: seq<Package>): string {
    if packages == [] then ""
    else EntryLine(packages[0]) + "\n" + (HashLine(packages[0]) + "\n" + PackagesText(packages[1..]))
  }

  function LockText(packages: seq<Package>): string {
    "packages:" + "\n" + PackagesText(packages)
  }

  function PackageLines(packages: seq<Package>): seq<string> {
    if packages == [] then [""] else [EntryLine(packages[0]), HashLine(packages[0])] + PackageLines(packages[1..])
  }

  lemma OneLine(line: string, text: string)
    requires '\n' !in line
    ensures AllLines(line + "\n" + text) == [line] + AllLines(text)
  {
    hide IndexOf;
    var whole := line + "\n" + text;
    FirstLine(whole);
    assert whole[|line|] == '\n';
    assert forall i :: 0 <= i < |line| ==> whole[i] == line[i];
    assert IndexOf(whole, '\n') == |line|;
    assert whole[..|line|] == line && whole[|line| + 1..] == text;
  }

  lemma NoLines()
    ensures AllLines("") == [""]
  {
    FirstLine("");
  }

  lemma NoNewlines(p: Package)
    requires Writable(p)
    ensures '\n' !in EntryLine(p) && '\n' !in HashLine(p)
  {
    assert IsBreak('\n');
  }

  lemma {:induction false} PackagesLines(packages: seq<Package>)
    requires forall i :: 0 <= i < |packages| ==> Writable(packages[i])
    ensures AllLines(PackagesText(packages)) == PackageLines(packages)
  {
    hide AllLines, EntryLine, HashLine, Writable;
    if packages == [] {
      NoLines();
    } else {
      var p := packages[0];
      NoNewlines(p);
      PackagesLines(packages[1..]);
      OneLine(HashLine(p), PackagesText(packages[1..]));
      OneLine(EntryLine(p), HashLine(p) + "\n" + PackagesText(packages[1..]));
    }
  }

  lemma FirstOf(s: string, c: char, n: nat)
    requires n <= |s| && (n < |s| ==> s[n] == c) && forall j :: 0 <= j < n ==> s[j] != c
    ensures IndexOf(s, c) == n
  {
    hide IndexOf;
  }

  lemma BaseOf(key: string, suffix: string)
    requires '(' !in key && (suffix == "" || suffix[0] == '(')
    ensures Base(key + suffix) == key
  {
    hide IndexOf;
    assert forall i :: 0 <= i < |key| ==> (key + suffix)[i] == key[i] && key[i] in key;
    FirstOf(key + suffix, '(', |key|);
  }

  lemma UnquotedName(p: Package)
    requires Writable(p)
    ensures Unquoted(NameOf(p)) == p.key + p.suffix
  {
    hide IsBreak, IsSpace;
    var full := p.key + p.suffix;
    assert full[0] == p.key[0];
    if p.quoted {
      assert NameOf(p)[..1] == "'" && NameOf(p)[1..] == full + "'";
      assert (full + "'")[..|full|] == full;
    } else {
      assert full[..1][0] == full[0];
    }
  }

  lemma NameIsPlain(p: Package)
    requires Writable(p)
    ensures NameOf(p) != "" && !IsSpace(NameOf(p)[0]) && Plain(NameOf(p))
  {
    hide IsBreak;
    assert !IsBreak('\'') && !IsSpace('\'') by { QuoteIsPlain(); }
    var full := p.key + p.suffix;
    assert full[0] == p.key[0];
    assert Plain(full);
  }

  lemma QuoteIsPlain()
    ensures !IsBreak('\'') && !IsSpace('\'')
  {
  }

  lemma NamedEntry(name: string)
    requires name != "" && !IsSpace(name[0]) && Plain(name)
    ensures
      var line := "  " + name + ":";
      IsEntry(line) && line[2..|line| - 1] == name && line[0] == ' '
  {
    hide IsBreak, IsSpace;
    var line := "  " + name + ":";
    assert line[..2] == "  ";
    forall i | 3 <= i < |line| - 1 ensures !IsBreak(line[i]) { assert line[i] == name[i - 2]; }
  }

  lemma ReadsEntry(p: Package)
    requires Writable(p)
    ensures ReadLine(EntryLine(p)) == Entry(p.key + p.suffix)
  {
    hide NameOf, IsEntry, Unquoted;
    UnquotedName(p);
    NameIsPlain(p);
    NamedEntry(NameOf(p));
  }

  lemma TrimmedHash(hash: string)
    requires hash != "" && !IsSpace(hash[0]) && !IsSpace(hash[|hash| - 1])
    ensures Trim(" " + hash) == hash
  {
    assert (" " + hash)[1..] == hash;
    assert TrimStart(hash) == hash;
    assert TrimStart(" " + hash) == hash;
  }

  lemma {:induction false} Stops(s: string, rest: string)
    requires ',' !in s && '}' !in s
    ensures UntilStop(s + "}" + rest) == s
  {
    if s == "" {
      assert s + "}" + rest == "}" + rest;
    } else {
      assert (s + "}" + rest)[1..] == s[1..] + "}" + rest;
      Stops(s[1..], rest);
      assert [s[0]] + s[1..] == s;
    }
  }

  lemma HashHere(p: Package)
    requires Writable(p)
    ensures IntegrityHere("resolution: {integrity: " + p.hash + "}") == Some(p.hash)
  {
    hide IsSpace, UntilStop, Trim;
    var s := "resolution: {integrity: " + p.hash + "}";
    var after := "{integrity:" + (" " + p.hash + "}" + "");
    assert s[..|RESOLUTION|] == RESOLUTION;
    assert s[|RESOLUTION|..] == " " + after;
    assert (" " + after)[1..] == after;
    assert TrimStart(" " + after) == after by { SkipBlank(after); }
    assert after[..|INTEGRITY|] == INTEGRITY && after[|INTEGRITY|..] == " " + p.hash + "}" + "";
    Stops(" " + p.hash, "");
    TrimmedHash(p.hash);
  }

  lemma SkipBlank(s: string)
    requires StartsWith(s, "{")
    ensures TrimStart(" " + s) == s
  {
    assert (" " + s)[1..] == s;
    assert s[..1] == "{" && s[0] == '{';
    assert TrimStart(s) == s;
  }

  lemma OtherPrefix(s: string, prefix: string)
    requires s != "" && prefix != "" && s[0] != prefix[0]
    ensures !StartsWith(s, prefix)
  {
    if |prefix| <= |s| { assert s[..|prefix|][0] == s[0]; }
  }

  lemma NotHere(line: string)
    requires line != "" && line[0] == ' '
    ensures IntegrityHere(line).None?
  {
    hide StartsWith;
    OtherPrefix(line, RESOLUTION);
  }

  lemma FindNext(line: string)
    requires line != "" && line[0] == ' '
    ensures FindIntegrity(line) == FindIntegrity(line[1..])
  {
    hide IntegrityHere;
    NotHere(line);
  }

  lemma FoundHere(line: string)
    requires IntegrityHere(line).Some?
    ensures FindIntegrity(line) == IntegrityHere(line)
  {
    hide IntegrityHere;
  }

  lemma HashLineParts(p: Package)
    requires p.hash != ""
    ensures
      var line := HashLine(p);
      && |line| > 5 && line[0] == ' ' && line[1] == ' ' && line[2] == ' ' && line[3] == ' ' && line[|line| - 1] == '}'
      && line[4..] == "resolution: {integrity: " + p.hash + "}"
  {
  }

  lemma ReadsHash(p: Package)
    requires Writable(p)
    ensures ReadLine(HashLine(p)) == Integrity(p.hash)
  {
    hide IntegrityHere, FindIntegrity, HashLine;
    var line := HashLine(p);
    HashLineParts(p);
    HashHere(p);
    FindNext(line);
    FindNext(line[1..]);
    FindNext(line[2..]);
    FindNext(line[3..]);
    assert line[1..][1..] == line[2..] && line[2..][1..] == line[3..] && line[3..][1..] == line[4..];
    FoundHere(line[4..]);
  }

  /** The lines of a written lockfile, as they are read. */
  function Expected(packages: seq<Package>): seq<Line> {
    if packages == [] then [Other]
    else [Entry(packages[0].key + packages[0].suffix), Integrity(packages[0].hash)] + Expected(packages[1..])
  }

  lemma ClassifiedCons(line: string, lines: seq<string>)
    ensures Classified([line] + lines) == [ReadLine(line)] + Classified(lines)
  {
    hide ReadLine;
  }

  lemma {:induction false} ReadsPackages(packages: seq<Package>)
    requires forall i :: 0 <= i < |packages| ==> Writable(packages[i])
    ensures Classified(PackageLines(packages)) == Expected(packages)
  {
    hide ReadLine, Writable, Classified, EntryLine, HashLine;
    if packages == [] {
      NothingRead();
      ClassifiedCons("", []);
      assert Classified([]) == [];
      assert [""] + [] == [""];
    } else {
      var p, rest := packages[0], PackageLines(packages[1..]);
      ReadsEntry(p);
      ReadsHash(p);
      ReadsPackages(packages[1..]);
      ClassifiedCons(HashLine(p), rest);
      ClassifiedCons(EntryLine(p), [HashLine(p)] + rest);
      assert [EntryLine(p)] + ([HashLine(p)] + rest) == [EntryLine(p), HashLine(p)] + rest;
    }
  }

  lemma NothingRead()
    ensures ReadLine("") == Other
  {
  }

  lemma LockLines(packages: seq<Package>)
    requires forall i :: 0 <= i < |packages| ==> Writable(packages[i])
    ensures AllLines(LockText(packages)) == ["packages:"] + PackageLines(packages)
  {
    hide AllLines, PackagesText, PackageLines, Writable;
    OneLine("packages:", PackagesText(packages));
    PackagesLines(packages);
  }

  lemma ReadsLock(packages: seq<Package>)
    requires forall i :: 0 <= i < |packages| ==> Writable(packages[i])
    ensures Classified(AllLines(LockText(packages))) == [Section(true)] + Expected(packages)
  {
    hide AllLines, Classified, LockText, PackageLines, Expected, Writable, ReadLine;
    LockLines(packages);
    ReadsPackages(packages);
    ClassifiedCons("packages:", PackageLines(packages));
    OpensPackages();
  }

  lemma OpensPackages()
    ensures ReadLine("packages:") == Section(true)
  {
    assert !IsSpace('p');
  }

  lemma BaseIsKey(p: Package)
    requires Writable(p)
    ensures Base(p.key + p.suffix) == p.key
  {
    hide Base, IsBreak, IsSpace;
    BaseOf(p.key, p.suffix);
  }

  lemma {:induction false} ExpectedEnd(packages: seq<Package>)
    ensures |Expected(packages)| == 2 * |packages| + 1 && Expected(packages)[2 * |packages|] == Other
  {
    if packages != [] {
      ExpectedEnd(packages[1..]);
      assert Expected(packages)[2 * |packages|] == Expected(packages[1..])[2 * |packages| - 2];
    }
  }

  lemma {:induction false} ExpectedAt(packages: seq<Package>, i: nat)
    requires i < |packages|
    ensures |Expected(packages)| == 2 * |packages| + 1
    ensures Expected(packages)[2 * i] == Entry(packages[i].key + packages[i].suffix)
    ensures Expected(packages)[2 * i + 1] == Integrity(packages[i].hash)
  {
    ExpectedEnd(packages);
    if i > 0 {
      ExpectedAt(packages[1..], i - 1);
      var rest := Expected(packages[1..]);
      assert Expected(packages)[2 * i] == rest[2 * i - 2] && Expected(packages)[2 * i + 1] == rest[2 * i - 1];
    }
  }

  /** The place after the n-th line of a written lockfile. */
  lemma {:induction false} WrittenPlace(packages: seq<Package>, lines: seq<Line>, n: nat)
    requires lines == [Section(true)] + Expected(packages) && n <= |packages|
    requires forall i :: 0 <= i < |packages| ==> Writable(packages[i])
    ensures |Expected(packages)| == 2 * |packages| + 1
    ensures InPackages(lines, 2 * n + 1)
    ensures n < |packages| ==> lines[2 * n + 1] == Entry(packages[n].key + packages[n].suffix)
    ensures n < |packages| ==> lines[2 * n + 2] == Integrity(packages[n].hash) && KeyAt(lines, 2 * n + 2) == Some(packages[n].key)
  {
    hide Writable, Base, Expected;
    ExpectedEnd(packages);
    if n < |packages| { ExpectedAt(packages, n); }
    if n > 0 { ExpectedAt(packages, n - 1); }
    if n == 0 {
      assert InPackages(lines, 1);
    } else {
      WrittenPlace(packages, lines, n - 1);
      assert InPackages(lines, 2 * n);
    }
    if n < |packages| {
      BaseIsKey(packages[n]);
    }
  }

  ghost predicate HasHash(packages: seq<Package>, key: string, hash: string) {
    exists i :: 0 <= i < |packages| && packages[i].key == key && packages[i].hash == hash
  }

  /** A lockfile written down states exactly the hashes of its packages, quotes and peer suffixes gone. */
  lemma WrittenStates(packages: seq<Package>, key: string, hash: string)
    requires forall i :: 0 <= i < |packages| ==> Writable(packages[i])
    ensures
      var lines := Classified(AllLines(LockText(packages)));
      Stated(lines, |lines|, key, hash) <==> HasHash(packages, key, hash)
  {
    hide Writable, AllLines, Classified, LockText, KeyAt, InPackages;
    var lines := Classified(AllLines(LockText(packages)));
    ReadsLock(packages);
    ExpectedEnd(packages);
    if Stated(lines, |lines|, key, hash) {
      var m :| 0 <= m < |lines| && States(lines, m, key, hash);
      OddPlaces(packages, m);
      WrittenPlace(packages, lines, (m - 2) / 2);
      assert packages[(m - 2) / 2].key == key;
    }
    if HasHash(packages, key, hash) {
      var i :| 0 <= i < |packages| && packages[i].key == key && packages[i].hash == hash;
      WrittenPlace(packages, lines, i);
      assert States(lines, 2 * i + 2, key, hash);
    }
  }

  /** Hashes stand at every second place. */
  lemma OddPlaces(packages: seq<Package>, m: nat)
    requires m < 2 * |packages| + 2 && |Expected(packages)| == 2 * |packages| + 1
    ensures ([Section(true)] + Expected(packages))[m].Integrity? <==> m >= 2 && m % 2 == 0 && (m - 2) / 2 < |packages|
  {
    hide Expected;
    ExpectedEnd(packages);
    if m > 0 {
      var i, line := (m - 1) / 2, ([Section(true)] + Expected(packages))[m];
      assert line == Expected(packages)[m - 1];
      if i < |packages| { ExpectedAt(packages, i); }
      if m % 2 == 1 {
        assert m - 1 == 2 * i && i <= |packages|;
        assert line == Expected(packages)[2 * i] && !line.Integrity?;
      } else {
        assert m - 1 == 2 * i + 1 && i < |packages| && (m - 2) / 2 == i;
        assert line == Expected(packages)[2 * i + 1] && line.Integrity?;
      }
    }
  }
}
