/** Sealing and checking one package (`seal` and `check_package` of bridge-claims/tools/package.py), down to the
    text of `PACKAGE.sha256`. */
module SealedPackage {
  import opened FileTree

  const MANIFEST := "PACKAGE.sha256"
  const GENERATION := "GENERATION"

  /** A hexadecimal digest: 64 characters, none of them white space. */
  type Hex = s: string | |s| == 64 && forall i :: 0 <= i < 64 ==> s[i] != ' ' && s[i] != '\n'
    witness seq(64, i => '0')

  /** SHA-256 as hexadecimal text; nothing but its form is assumed. */
  type Sha = Content -> Hex

  /** The files of a package, by path relative to it. */
  type Files = map<string, Content>

  datatype Entry = Entry(generation: string, digest: Hex)

  // ----- the manifest text

  function Line(digest: Hex, name: string): string { digest + "  " + name + "\n" }

  function Text(sha: Sha, files: Files, order: seq<string>): string
    requires forall i :: 0 <= i < |order| ==> order[i] in files
  {
    if order == [] then "" else Line(sha(files[order[0]]), order[0]) + Text(sha, files, order[1..])
  }

  /** Where the first line of the text ends. */
  function LineEnd(text: string): (n: nat)
    ensures n <= |text|
    ensures n < |text| ==> text[n] == '\n'
    ensures forall i :: 0 <= i < n ==> text[i] != '\n'
  {
    if text == "" || text[0] == '\n' then 0 else 1 + LineEnd(text[1..])
  }

  /** `line.partition("  ")`: where the first double space starts, or the end of the line. */
  function Separator(line: string): (n: nat)
    ensures n <= |line|
    ensures n < |line| ==> n + 2 <= |line| && line[n] == ' ' && line[n + 1] == ' '
    ensures forall i :: 0 <= i < n && i + 1 < |line| ==> !(line[i] == ' ' && line[i + 1] == ' ')
  {
    if |line| < 2 then |line| else if line[0] == ' ' && line[1] == ' ' then 0 else 1 + Separator(line[1..])
  }

  /** The first line of a text: its digest and its name, and the text after it. */
  function FirstLine(text: string): (r: (string, string, string))
    requires text != ""
    ensures |r.2| < |text|
  {
    var n := LineEnd(text);
    var line := text[..n];
    var s := Separator(line);
    (line[..s], if s < |line| then line[s + 2..] else "", if n < |text| then text[n + 1..] else "")
  }

  /** The listing `check_package` reads: later lines replace earlier ones. */
  function Parse(text: string): map<string, string>
    decreases |text|
  {
    if text == "" then map[]
    else
      var (digest, name, rest) := FirstLine(text);
      map[name := digest] + Parse(rest)
  }

  predicate PlainName(name: string) { forall i :: 0 <= i < |name| ==> name[i] != '\n' && name[i] != '\r' }

  lemma ParseLine(digest: Hex, name: string, rest: string)
    requires PlainName(name)
    ensures Parse(Line(digest, name) + rest) == map[name := digest] + Parse(rest)
  {
    var text := Line(digest, name) + rest;
    var line := digest + "  " + name;
    var n := LineEnd(text);
    assert text[|line|] == '\n';
    assert forall i :: 0 <= i < |line| ==> text[i] == line[i] != '\n';
    assert n == |line|;
    assert text[..n] == line && text[n + 1..] == rest;
    var s := Separator(line);
    assert line[64] == ' ' && line[65] == ' ';
    assert forall i :: 0 <= i < 64 ==> line[i] == digest[i];
    assert line[..64] == digest && line[66..] == name;
  }

  function Digests(sha: Sha, files: Files, order: seq<string>): map<string, string>
    requires forall i :: 0 <= i < |order| ==> order[i] in files
  {
    map name | name in order :: sha(files[name])
  }

  /** The text reads back as the digests it was written from. */
  lemma {:induction false} ParseText(sha: Sha, files: Files, order: seq<string>)
    requires forall i :: 0 <= i < |order| ==> order[i] in files && PlainName(order[i])
    ensures Parse(Text(sha, files, order)) == Digests(sha, files, order)
  {
    if order == [] {
      assert Digests(sha, files, order) == map[];
    } else {
      hide Parse, Line, PlainName, Digests;
      DigestsCons(sha, files, order);
      ParseText(sha, files, order[1..]);
      ParseLine(sha(files[order[0]]), order[0], Text(sha, files, order[1..]));
    }
  }

  lemma DigestsCons(sha: Sha, files: Files, order: seq<string>)
    requires order != [] && forall i :: 0 <= i < |order| ==> order[i] in files
    ensures Digests(sha, files, order) == map[order[0] := sha(files[order[0]])] + Digests(sha, files, order[1..])
  {
    assert order == [order[0]] + order[1..];
  }

  // ----- seal and check

  /** `order` lists every file but the manifest, once; the source sorts by name. */
  predicate Listing(files: Files, order: seq<string>)
  {
    && (forall i :: 0 <= i < |order| ==> order[i] in files && order[i] != MANIFEST && PlainName(order[i]))
    && (forall name :: name in files && name != MANIFEST ==> name in order)
  }

  /** The built files with `GENERATION` and then `PACKAGE.sha256` written over them. */
  function Sealed(sha: Sha, built: Files, generation: string, order: seq<string>): Files
    requires Listing(built[GENERATION := generation + "\n"], order)
  {
    var files := built[GENERATION := generation + "\n"];
    files[MANIFEST := Text(sha, files, order)]
  }

  /** `str.strip`, for blanks and line ends. */
  function Strip(s: string): string
  {
    if s != "" && IsSpace(s[0]) then Strip(s[1..])
    else if s != "" && IsSpace(s[|s| - 1]) then Strip(s[..|s| - 1])
    else s
  }

  predicate IsSpace(c: char) { c == ' ' || c == '\n' || c == '\t' || c == '\r' }

  predicate PlainGeneration(g: string) { g != "" && !IsSpace(g[0]) && !IsSpace(g[|g| - 1]) }

  /** `check_package` with no problems: the manifest is the listed one, it lists exactly the other files with
      their digests, and the generation is the listed one. */
  ghost predicate Passes(sha: Sha, files: Files, entry: Entry)
  {
    && MANIFEST in files
    && sha(files[MANIFEST]) == entry.digest
    && ListedRight(sha, files, Parse(files[MANIFEST]))
    && GENERATION in files
    && Strip(files[GENERATION]) == entry.generation
  }

  /** The loop over the lines of the manifest. */
  method ReadListing(text: string) returns (listed: map<string, string>)
    ensures listed == Parse(text)
  {
    hide FirstLine, Parse;
    listed := map[];
    var rest := text;
    while rest != ""
      invariant listed + Parse(rest) == Parse(text)
      decreases |rest|
    {
      var (digest, name, later) := FirstLine(rest);
      OneLine(listed, rest);
      listed := listed[name := digest];
      rest := later;
    }
    NoLine();
    assert listed + map[] == listed;
  }

  lemma OneLine(listed: map<string, string>, text: string)
    requires text != ""
    ensures var (digest, name, rest) := FirstLine(text); listed + Parse(text) == listed[name := digest] + Parse(rest)
  {
    hide FirstLine;
    var (digest, name, rest) := FirstLine(text);
    var more := Parse(rest);
    assert Parse(text) == map[name := digest] + more;
    hide Parse;
    assert listed + (map[name := digest] + more) == listed[name := digest] + more;
  }

  lemma NoLine()
    ensures Parse("") == map[]
  {
  }

  datatype Problem = NoManifest | OtherManifest | NotListed(name: string) | Missing(name: string) | Differs(name: string)
                   | OtherGeneration | NoGeneration

  /** What is wrong with one name. */
  function Objection(sha: Sha, files: Files, listed: map<string, string>, name: string): seq<Problem>
  {
    if name !in listed then [NotListed(name)]
    else if name !in files then [Missing(name)]
    else if sha(files[name]) != listed[name] then [Differs(name)]
    else []
  }

  method CheckNames(sha: Sha, files: Files, listed: map<string, string>, names: set<string>) returns (problems: seq<Problem>)
    ensures problems == [] <==> forall name :: name in names ==> Objection(sha, files, listed, name) == []
  {
    hide Objection;
    problems := [];
    var todo := names;
    while todo != {}
      invariant todo <= names
      invariant problems == [] <==> forall name :: name in names && name !in todo ==> Objection(sha, files, listed, name) == []
      decreases |todo|
    {
      var name :| name in todo;
      problems := problems + Objection(sha, files, listed, name);
      todo := todo - {name};
    }
  }

  /** `check_package` on the files of a package. */
  method CheckPackage(sha: Sha, files: Files, entry: Entry) returns (problems: seq<Problem>)
    ensures problems == [] <==> Passes(sha, files, entry)
  {
    hide Parse, Strip, Objection;
    if MANIFEST !in files {
      return [NoManifest];
    }
    problems := if sha(files[MANIFEST]) != entry.digest then [OtherManifest] else [];
    var listed := ReadListing(files[MANIFEST]);
    var more := CheckNames(sha, files, listed, files.Keys - {MANIFEST} + listed.Keys);
    NamesIff(sha, files, listed);
    problems := problems + more;
    if GENERATION !in files {
      problems := problems + [NoGeneration];
    } else if Strip(files[GENERATION]) != entry.generation {
      problems := problems + [OtherGeneration];
    }
  }

  ghost predicate ListedRight(sha: Sha, files: Files, listed: map<string, string>)
  {
    forall name :: (name in files && name != MANIFEST) || name in listed ==>
      name in listed && name in files && sha(files[name]) == listed[name]
  }

  lemma NamesIff(sha: Sha, files: Files, listed: map<string, string>)
    ensures (forall name :: name in files.Keys - {MANIFEST} + listed.Keys ==> Objection(sha, files, listed, name) == [])
       <==> ListedRight(sha, files, listed)
  {
    if ListedRight(sha, files, listed) {
      forall name | name in files.Keys - {MANIFEST} + listed.Keys ensures Objection(sha, files, listed, name) == [] {
      }
    }
    if forall name :: name in files.Keys - {MANIFEST} + listed.Keys ==> Objection(sha, files, listed, name) == [] {
      forall name | (name in files && name != MANIFEST) || name in listed
        ensures name in listed && name in files && sha(files[name]) == listed[name]
      {
        assert name in files.Keys - {MANIFEST} + listed.Keys;
      }
    }
  }

  /** A package just sealed passes the check against the entry its refresh lists. */
  lemma SealPasses(sha: Sha, built: Files, generation: string, order: seq<string>)
    requires Listing(built[GENERATION := generation + "\n"], order) && PlainGeneration(generation)
    ensures var files := Sealed(sha, built, generation, order);
            Passes(sha, files, Entry(generation, sha(files[MANIFEST])))
  {
    hide Parse, Text, Strip, PlainName;
    ParseText(sha, built[GENERATION := generation + "\n"], order);
    StripLine(generation);
    NamesDiffer();
  }

  lemma StripLine(g: string)
    requires PlainGeneration(g)
    ensures Strip(g + "\n") == g
  {
    assert (g + "\n")[..|g|] == g;
  }

  lemma NamesDiffer()
    ensures MANIFEST != GENERATION
  {
    assert |MANIFEST| != |GENERATION|;
  }

  // ----- soundness

  /** Two different files that were hashed alike. */
  ghost predicate Collision(sha: Sha, xs: set<Content>, ys: set<Content>)
  {
    exists x, y :: x in xs && y in ys && x != y && sha(x) == sha(y)
  }

  /** Two packages that pass against the same entry are the same files, or two of their files collide. */
  lemma PassesUnique(sha: Sha, xs: Files, ys: Files, entry: Entry)
    requires Passes(sha, xs, entry) && Passes(sha, ys, entry)
    ensures xs == ys || Collision(sha, xs.Values, ys.Values)
  {
    if !Collision(sha, xs.Values, ys.Values) {
      assert xs[MANIFEST] in xs.Values && ys[MANIFEST] in ys.Values;
      assert xs[MANIFEST] == ys[MANIFEST];
      var listed := Parse(xs[MANIFEST]);
      assert forall name :: name in xs && name != MANIFEST <==> name in listed && name != MANIFEST;
      assert xs.Keys == ys.Keys;
      forall name | name in xs ensures xs[name] == ys[name] {
        assert xs[name] in xs.Values && ys[name] in ys.Values;
      }
    }
  }
}
