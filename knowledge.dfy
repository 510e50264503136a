/**
 * Knowledge-base assembly (`loadKnowledgeBase`): the `data` directory's
 * recognised files become an insertion-ordered record from base name to text.
 */
module Knowledge {
  import opened Wrappers
  import opened Json

  /** What `fs.statSync` reports for a directory entry; a failing stat throws. */
  datatype Kind = RegularFile | NotAFile | StatFails(reason: string)

  /** A directory entry: its file name, its kind and its UTF-8 text (None when reading it throws). */
  datatype Entry = Entry(name: string, kind: Kind, content: Option<string>)

  /** The `data` directory: absent, present but not listable, or listed in `readdirSync` order. */
  datatype Directory = Missing | Unlistable(reason: string) | Listing(entries: seq<Entry>)

  /**
   * A `Record<string, string>`: `text` holds the entries and `order` the keys in
   * insertion order, which is the order `Object.entries` yields them in.
   */
  datatype Knowledge = Knowledge(order: seq<string>, text: map<string, string>)

  const Empty: Knowledge := Knowledge([], map[])

  /** Each element occurs once. */
  ghost predicate Distinct(s: seq<string>) {
    forall i, j :: 0 <= i < j < |s| ==> s[i] != s[j]
  }

  /** Each key is listed once in `order`, and exactly the keys of `text` are listed. */
  ghost predicate Valid(kb: Knowledge) {
    Distinct(kb.order) &&
    (forall k :: k in kb.text <==> k in kb.order)
  }

  /** `record[key] = value`: a new key goes last, an existing key keeps its place. */
  function Put(kb: Knowledge, key: string, value: string): (r: Knowledge)
    ensures Valid(kb) ==> Valid(r)
    ensures r.text == kb.text[key := value]
    ensures |r.order| == if key in kb.text then |kb.order| else |kb.order| + 1
    ensures forall i :: 0 <= i < |kb.order| ==> r.order[i] == kb.order[i]
    ensures key !in kb.text ==> r.order[|r.order| - 1] == key
  {
    Knowledge(if key in kb.text then kb.order else kb.order + [key], kb.text[key := value])
  }

  /** Index of the last '.' of `s`. */
  function LastDot(s: string): (r: Option<nat>)
    ensures r.Some? ==> r.value < |s| && s[r.value] == '.' && '.' !in s[r.value + 1..]
    ensures r.None? ==> '.' !in s
  {
    if s == [] then None
    else if s[|s| - 1] == '.' then Some(|s| - 1)
    else
      var r := LastDot(s[..|s| - 1]);
      assert s == s[..|s| - 1] + [s[|s| - 1]];
      r
  }

  /**
   * `path.extname` of a bare file name: the text from the last dot on, except
   * when that dot is the first character or the name is "..".
   */
  function ExtName(file: string): (ext: string)
    ensures ext == "" || (ext[0] == '.' && '.' !in ext[1..] && |ext| < |file| && file[|file| - |ext|..] == ext)
  {
    match LastDot(file)
    case None => ""
    case Some(d) => if d == 0 || file == ".." then "" else file[d..]
  }

  /** A name has no extension exactly when it is ".." or has no dot after its first character. */
  lemma ExtNameEmpty(file: string)
    ensures ExtName(file) == "" <==> file == ".." || forall i :: 0 < i < |file| ==> file[i] != '.'
  {
  }

  function LowerChar(c: char): char {
    if 'A' <= c <= 'Z' then (c as int + 32) as char else c
  }

  /** `toLowerCase` restricted to ASCII letters. */
  function LowerAscii(s: string): (r: string)
    ensures |r| == |s| && forall i :: 0 <= i < |s| ==> r[i] == LowerChar(s[i])
  {
    if s == [] then [] else [LowerChar(s[0])] + LowerAscii(s[1..])
  }

  /** `path.basename(file, ext)`: strips `ext` when the name ends with it exactly (case-sensitive). */
  function BaseName(file: string, ext: string): string {
    if ext == file then ""
    else if 0 < |ext| < |file| && file[|file| - |ext|..] == ext then file[..|file| - |ext|]
    else file
  }

  /** The stem and the stripped suffix make up the name again; a suffix the name does not end with is kept. */
  lemma BaseNameStrips(file: string, ext: string)
    ensures if 0 < |ext| <= |file| && file[|file| - |ext|..] == ext then BaseName(file, ext) + ext == file
            else BaseName(file, ext) == file
  {
  }

  /**
   * The record entry one directory entry yields: a regular `.json` file that
   * parses gives its canonical re-serialisation, a regular `.md` or `.txt` file
   * its text; anything else, and any read or parse that throws, gives nothing.
   */
  function Contribution(e: Entry, codec: Codec): Option<(string, string)> {
    if !e.kind.RegularFile? then None
    else
      var ext := LowerAscii(ExtName(e.name));
      var name := BaseName(e.name, ext);
      if ext == ".json" then
        match e.content
        case None => None
        case Some(c) =>
          (match codec.parse(c)
           case None => None
           case Some(j) => Some((name, codec.stringify(j))))
      else if ext == ".md" || ext == ".txt" then
        match e.content
        case None => None
        case Some(c) => Some((name, c))
      else None
  }

  /** What one directory entry adds to the record, if anything. */
  type EntryRule = Entry -> Option<(string, string)>

  /** The rule `loadKnowledgeBase` applies to each entry, as a function value. */
  function Rule(codec: Codec): EntryRule {
    e => Contribution(e, codec)
  }

  /** Entry `e` contributes `key` under the per-entry rule `rule`. */
  predicate Contributes(e: Entry, rule: EntryRule, key: string) {
    rule(e).Some? && rule(e).value.0 == key
  }

  /** Stores a contribution, if there is one. */
  function Record(kb: Knowledge, c: Option<(string, string)>): Knowledge {
    match c
    case None => kb
    case Some(kv) => Put(kb, kv.0, kv.1)
  }

  /**
   * The loop of `loadKnowledgeBase` over the listed entries, each recorded by
   * `rule` (in the handler, `Rule(codec)`); a failing stat aborts it.
   */
  function LoadEntries(es: seq<Entry>, rule: EntryRule): Result<Knowledge, string>
    decreases |es|
  {
    if es == [] then Success(Empty)
    else
      match LoadEntries(es[..|es| - 1], rule)
      case Failure(reason) => Failure(reason)
      case Success(kb) =>
        var e := es[|es| - 1];
        if e.kind.StatFails? then Failure(e.kind.reason)
        else Success(Record(kb, rule(e)))
  }

  /** `loadKnowledgeBase`: a missing directory gives the empty record. */
  function LoadDirectory(dir: Directory, codec: Codec): Result<Knowledge, string> {
    match dir
    case Missing => Success(Empty)
    case Unlistable(reason) => Failure(reason)
    case Listing(es) => LoadEntries(es, Rule(codec))
  }

  method LoadKnowledgeBase(dir: Directory, codec: Codec) returns (r: Result<Knowledge, string>)
    ensures r == LoadDirectory(dir, codec)
  {
    match dir {
      case Missing =>
        return Success(Empty);
      case Unlistable(reason) =>
        return Failure(reason);
      case Listing(files) =>
        var knowledge := Empty;
        ghost var rule := Rule(codec);
        for i := 0 to |files|
          invariant LoadEntries(files[..i], rule) == Success(knowledge)
        {
          var file := files[i];
          if file.kind.StatFails? {
            LoadPrefixStep(files, i, rule);
            FailureSticks(files, i + 1, rule);
            return Failure(file.kind.reason);
          }
          LoadPrefixStep(files, i, rule);
          if !file.kind.RegularFile? {
            continue;
          }
          ghost var before := knowledge;
          var ext := LowerAscii(ExtName(file.name));
          var name := BaseName(file.name, ext);
          if ext == ".json" {
            if file.content.Some? {
              var parsed := codec.parse(file.content.value);
              if parsed.Some? {
                knowledge := Put(knowledge, name, codec.stringify(parsed.value));
              }
            }
          } else if ext == ".md" || ext == ".txt" {
            if file.content.Some? {
              knowledge := Put(knowledge, name, file.content.value);
            }
          }
          assert knowledge == Record(before, rule(file));
        }
        assert files[..|files|] == files;
        return Success(knowledge);
    }
  }

  /** One more entry of the listing: a failing stat fails the load, any other entry is recorded. */
  lemma LoadPrefixStep(es: seq<Entry>, i: nat, rule: EntryRule)
    requires i < |es|
    ensures LoadEntries(es[..i + 1], rule) ==
              match LoadEntries(es[..i], rule)
              case Failure(reason) => Failure(reason)
              case Success(kb) =>
                if es[i].kind.StatFails? then Failure(es[i].kind.reason) else Success(Record(kb, rule(es[i])))
  {
    assert es[..i + 1][..i] == es[..i];
  }

  /** Once a prefix of the listing fails, the whole load fails with the same reason. */
  lemma {:induction false} FailureSticks(es: seq<Entry>, n: nat, rule: EntryRule)
    requires n <= |es| && LoadEntries(es[..n], rule).Failure?
    ensures LoadEntries(es, rule) == LoadEntries(es[..n], rule)
    decreases |es|
  {
    if n < |es| {
      var p := es[..|es| - 1];
      assert p[..n] == es[..n];
      FailureSticks(p, n, rule);
    } else {
      assert es[..n] == es;
    }
  }

  /** The name ends, ignoring ASCII case, with the extension `x` and has more before it. */
  predicate HasExt(file: string, x: string) {
    |file| > |x| && LowerAscii(file[|file| - |x|..]) == x
  }

  /** The record key of a file with extension `x`: the name without `x` if it ends with `x` as written. */
  function Stem(file: string, x: string): string
    requires |x| < |file|
  {
    if file[|file| - |x|..] == x then file[..|file| - |x|] else file
  }

  lemma LowerCharDot(c: char)
    ensures LowerChar(c) == '.' <==> c == '.'
  {
  }

  /** When the name ends with a one-dot extension `x` (ignoring case), that suffix is its `extname`. */
  lemma ExtNameOfSuffix(file: string, x: string)
    requires |x| >= 2 && x[0] == '.' && '.' !in x[1..] && HasExt(file, x)
    ensures ExtName(file) == file[|file| - |x|..]
  {
    var d := |file| - |x|;
    var low := LowerAscii(file[d..]);
    assert low[0] == LowerChar(file[d]);
    LowerCharDot(file[d]);
    forall k | d < k < |file|
      ensures file[k] != '.'
    {
      assert low[k - d] == LowerChar(file[k]);
      LowerCharDot(file[k]);
      assert x[1..][k - d - 1] == x[k - d];
    }
  }

  /**
   * A lower-case extension with one leading dot is recognised exactly when the
   * name ends with it ignoring ASCII case; the key is then the stem, which keeps
   * a suffix whose case differs.
   */
  lemma ExtensionByName(file: string, x: string)
    requires |x| >= 2 && x[0] == '.' && '.' !in x[1..] && LowerAscii(x) == x
    ensures LowerAscii(ExtName(file)) == x <==> HasExt(file, x)
    ensures HasExt(file, x) ==> BaseName(file, LowerAscii(ExtName(file))) == Stem(file, x)
  {
    if HasExt(file, x) {
      ExtNameOfSuffix(file, x);
    }
    if LowerAscii(ExtName(file)) == x {
      var ext := ExtName(file);
      assert |ext| == |x|;
      assert file[|file| - |x|..] == ext;
    }
  }

  /** Only a regular, readable file with one of the three extensions contributes. */
  lemma ContributionSource(e: Entry, codec: Codec)
    ensures Contribution(e, codec).Some? ==> e.kind.RegularFile? && e.content.Some?
    ensures Contribution(e, codec).Some? ==>
              HasExt(e.name, ".json") || HasExt(e.name, ".md") || HasExt(e.name, ".txt")
  {
    ExtensionByName(e.name, ".json");
    ExtensionByName(e.name, ".md");
    ExtensionByName(e.name, ".txt");
  }

  /** A regular, readable `.md` or `.txt` file contributes its text under its stem. */
  lemma ContributionOfText(e: Entry, codec: Codec)
    ensures e.kind.RegularFile? && e.content.Some? && HasExt(e.name, ".md") ==>
              Contribution(e, codec) == Some((Stem(e.name, ".md"), e.content.value))
    ensures e.kind.RegularFile? && e.content.Some? && HasExt(e.name, ".txt") ==>
              Contribution(e, codec) == Some((Stem(e.name, ".txt"), e.content.value))
  {
    ExtensionByName(e.name, ".md");
    ExtensionByName(e.name, ".txt");
  }

  /** `Notes.MD` is recognised as Markdown but keeps its whole name as its key. */
  lemma UpperCaseExtensionExample(codec: Codec)
    ensures Contribution(Entry("Notes.MD", RegularFile, Some("t")), codec) == Some(("Notes.MD", "t"))
  {
    ContributionOfText(Entry("Notes.MD", RegularFile, Some("t")), codec);
    assert "Notes.MD"[5..] == ".MD";
    assert LowerAscii(".MD") == ".md";
  }

  /**
   * A regular, readable `.json` file contributes its re-serialised document
   * under its stem when the text parses, and nothing when it does not.
   */
  lemma ContributionOfJson(e: Entry, codec: Codec)
    ensures e.kind.RegularFile? && e.content.Some? && HasExt(e.name, ".json") ==>
              Contribution(e, codec) ==
                match codec.parse(e.content.value)
                case None => None
                case Some(j) => Some((Stem(e.name, ".json"), codec.stringify(j)))
  {
    ExtensionByName(e.name, ".json");
  }

  /** The load fails exactly when some entry's stat fails, and then with the first such failure. */
  lemma {:induction false} LoadFailure(es: seq<Entry>, rule: EntryRule)
    ensures LoadEntries(es, rule).Failure? <==> exists i :: 0 <= i < |es| && es[i].kind.StatFails?
    ensures LoadEntries(es, rule).Failure? ==>
              exists i :: 0 <= i < |es| && es[i].kind == StatFails(LoadEntries(es, rule).error) &&
                          forall j :: 0 <= j < i ==> !es[j].kind.StatFails?
    decreases |es|
  {
    if es != [] {
      var p := es[..|es| - 1];
      LoadFailure(p, rule);
      assert forall i :: 0 <= i < |p| ==> p[i] == es[i];
    }
  }

  /** Some entry of `es` contributes `key`. */
  ghost predicate Contributed(es: seq<Entry>, rule: EntryRule, key: string) {
    exists i :: 0 <= i < |es| && Contributes(es[i], rule, key)
  }

  /** Entry `i` contributes (`key`, `value`) and no later entry contributes `key`. */
  ghost predicate LastContribution(es: seq<Entry>, rule: EntryRule, key: string, value: string) {
    exists i :: 0 <= i < |es| && rule(es[i]) == Some((key, value)) &&
                forall j :: i < j < |es| ==> !Contributes(es[j], rule, key)
  }

  /** One step of the load: the last entry's contribution is recorded into the load of the rest. */
  lemma LoadStep(es: seq<Entry>, rule: EntryRule)
    requires es != [] && LoadEntries(es, rule).Success?
    ensures LoadEntries(es[..|es| - 1], rule).Success?
    ensures !es[|es| - 1].kind.StatFails?
    ensures LoadEntries(es, rule).value ==
              Record(LoadEntries(es[..|es| - 1], rule).value, rule(es[|es| - 1]))
  {
  }

  /** A successful load lists each key once, in `order`, exactly as `text` holds them. */
  lemma {:induction false} LoadValid(es: seq<Entry>, rule: EntryRule)
    requires LoadEntries(es, rule).Success?
    ensures Valid(LoadEntries(es, rule).value)
    decreases |es|
  {
    if es != [] {
      LoadStep(es, rule);
      LoadValid(es[..|es| - 1], rule);
    }
  }

  /** After a successful load, `key` is present exactly when some entry contributes it. */
  lemma {:induction false} LoadKeysAt(es: seq<Entry>, rule: EntryRule, key: string)
    requires LoadEntries(es, rule).Success?
    ensures key in LoadEntries(es, rule).value.text <==> Contributed(es, rule, key)
    decreases |es|
  {
    if es != [] {
      var p := es[..|es| - 1];
      var e := es[|es| - 1];
      LoadStep(es, rule);
      LoadKeysAt(p, rule, key);
      var kb0 := LoadEntries(p, rule).value;
      var kb := LoadEntries(es, rule).value;
      if Contributes(e, rule, key) {
        assert key in kb.text;
        assert Contributes(es[|es| - 1], rule, key);
      } else {
        assert key in kb.text <==> key in kb0.text;
        if key in kb0.text {
          var i :| 0 <= i < |p| && Contributes(p[i], rule, key);
          assert es[i] == p[i];
        }
        if Contributed(es, rule, key) {
          var i :| 0 <= i < |es| && Contributes(es[i], rule, key);
          assert i < |p|;
          assert p[i] == es[i];
        }
      }
    }
  }

  /** After a successful load, a present key holds the value of the last entry that contributes it. */
  lemma {:induction false} LoadLastAt(es: seq<Entry>, rule: EntryRule, key: string)
    requires LoadEntries(es, rule).Success?
    requires key in LoadEntries(es, rule).value.text
    ensures LastContribution(es, rule, key, LoadEntries(es, rule).value.text[key])
    decreases |es|
  {
    var p := es[..|es| - 1];
    var e := es[|es| - 1];
    LoadStep(es, rule);
    var kb0 := LoadEntries(p, rule).value;
    var v := LoadEntries(es, rule).value.text[key];
    if Contributes(e, rule, key) {
      assert rule(es[|es| - 1]) == Some((key, v));
    } else {
      assert key in kb0.text && v == kb0.text[key];
      LoadLastAt(p, rule, key);
      var i :| 0 <= i < |p| && rule(p[i]) == Some((key, v)) &&
               forall j :: i < j < |p| ==> !Contributes(p[j], rule, key);
      forall j | i < j < |es|
        ensures !Contributes(es[j], rule, key)
      {
        if j < |p| {
          assert es[j] == p[j];
        }
      }
      assert es[i] == p[i];
    }
  }

  /**
   * A successful load holds exactly the contributed keys, each with the value
   * of the last entry that contributes it.
   */
  lemma LoadContents(es: seq<Entry>, rule: EntryRule)
    requires LoadEntries(es, rule).Success?
    ensures Valid(LoadEntries(es, rule).value)
    ensures forall k :: k in LoadEntries(es, rule).value.text <==> Contributed(es, rule, k)
    ensures forall k :: k in LoadEntries(es, rule).value.text ==>
              LastContribution(es, rule, k, LoadEntries(es, rule).value.text[k])
  {
    LoadValid(es, rule);
    forall k {
      LoadKeysAt(es, rule, k);
    }
    forall k | k in LoadEntries(es, rule).value.text {
      LoadLastAt(es, rule, k);
    }
  }

  /** A key no entry contributes is contributed by no prefix either. */
  lemma NotContributedPrefix(es: seq<Entry>, n: nat, rule: EntryRule, key: string)
    requires n <= |es| && !Contributed(es, rule, key)
    ensures !Contributed(es[..n], rule, key)
  {
    forall i | 0 <= i < n
      ensures !Contributes(es[..n][i], rule, key)
    {
      assert es[..n][i] == es[i];
    }
  }

  /** Key `x` is contributed by an entry that comes before every entry contributing `y`. */
  ghost predicate ContributedFirst(es: seq<Entry>, rule: EntryRule, x: string, y: string) {
    exists i :: 0 <= i < |es| && Contributes(es[i], rule, x) && !Contributed(es[..i + 1], rule, y)
  }

  /** An order established by a prefix of the listing still holds for the whole listing. */
  lemma FirstExtends(es: seq<Entry>, rule: EntryRule, x: string, y: string)
    requires es != [] && ContributedFirst(es[..|es| - 1], rule, x, y)
    ensures ContributedFirst(es, rule, x, y)
  {
    var p := es[..|es| - 1];
    var i :| 0 <= i < |p| && Contributes(p[i], rule, x) && !Contributed(p[..i + 1], rule, y);
    assert es[..i + 1] == p[..i + 1];
    assert es[i] == p[i];
  }

  /** A key the earlier entries contribute comes first before a key they do not. */
  lemma FirstBeforeNew(es: seq<Entry>, rule: EntryRule, x: string, y: string)
    requires es != [] && Contributed(es[..|es| - 1], rule, x) && !Contributed(es[..|es| - 1], rule, y)
    ensures ContributedFirst(es, rule, x, y)
  {
    var p := es[..|es| - 1];
    var i :| 0 <= i < |p| && Contributes(p[i], rule, x);
    assert es[..i + 1] == p[..i + 1];
    assert es[i] == p[i];
    NotContributedPrefix(p, i + 1, rule, y);
  }

  /**
   * Keys are ordered by their first contribution: of two keys, the one listed
   * first was contributed before any entry contributed the other. A later file
   * with the same base name replaces the text but not the position.
   */
  lemma {:induction false} LoadOrderAt(es: seq<Entry>, rule: EntryRule, a: nat, b: nat)
    requires LoadEntries(es, rule).Success?
    requires a < b < |LoadEntries(es, rule).value.order|
    ensures ContributedFirst(es, rule, LoadEntries(es, rule).value.order[a],
                             LoadEntries(es, rule).value.order[b])
    decreases |es|
  {
    var p := es[..|es| - 1];
    LoadStep(es, rule);
    var kb0 := LoadEntries(p, rule).value;
    var kb := LoadEntries(es, rule).value;
    var x, y := kb.order[a], kb.order[b];
    if b < |kb0.order| {
      LoadOrderAt(p, rule, a, b);
      assert kb0.order[a] == x && kb0.order[b] == y;
      FirstExtends(es, rule, x, y);
    } else {
      LoadValid(p, rule);
      LoadKeysAt(p, rule, x);
      LoadKeysAt(p, rule, y);
      assert x in kb0.order && y !in kb0.text;
      FirstBeforeNew(es, rule, x, y);
    }
  }

  /** Whatever `loadKnowledgeBase` returns lists each key once, exactly as it holds them. */
  lemma LoadDirectoryValid(dir: Directory, codec: Codec)
    ensures LoadDirectory(dir, codec).Success? ==> Valid(LoadDirectory(dir, codec).value)
  {
    if dir.Listing? && LoadDirectory(dir, codec).Success? {
      LoadValid(dir.entries, Rule(codec));
    }
  }

  /** The entry that contributes `key` last decides its value in the loaded record. */
  lemma LastContributorWins(es: seq<Entry>, rule: EntryRule, i: nat, key: string, value: string)
    requires LoadEntries(es, rule).Success?
    requires i < |es| && rule(es[i]) == Some((key, value))
    requires forall j :: i < j < |es| ==> !Contributes(es[j], rule, key)
    ensures key in LoadEntries(es, rule).value.text
    ensures LoadEntries(es, rule).value.text[key] == value
  {
    var kb := LoadEntries(es, rule).value;
    assert Contributes(es[i], rule, key);
    LoadKeysAt(es, rule, key);
    LoadLastAt(es, rule, key);
    var i' :| 0 <= i' < |es| && rule(es[i']) == Some((key, kb.text[key])) &&
              forall j :: i' < j < |es| ==> !Contributes(es[j], rule, key);
  }
}
