/**
 * System-prompt construction (`buildSystemPrompt`): the persona taken from the
 * `facts` document, the knowledge sections in priority order, and the fixed
 * template they are interpolated into.
 */
module Prompt {
  import opened Wrappers
  import opened Json
  import opened Knowledge

  /** The documents that come first, in this order, when present with non-empty text. */
  const Priority: seq<string> := ["facts", "summary", "linkedin", "skills", "projects", "style"]

  const DefaultFullName: string := "Richard Lecl\U{C3}\U{A9}zio"
  const DefaultName: string := "Rich"

  /** `x` occurs in `s` at an earlier position than `y`. */
  ghost predicate Before(s: seq<string>, x: string, y: string) {
    exists a, b :: 0 <= a < b < |s| && s[a] == x && s[b] == y
  }

  /** `sub` occurs in `s` as a contiguous piece. */
  ghost predicate Contains(s: string, sub: string) {
    exists k :: 0 <= k <= |s| && sub <= s[k..]
  }

  lemma ContainsMiddle(left: string, sub: string, right: string)
    ensures Contains(left + sub + right, sub)
  {
    assert (left + sub + right)[|left|..] == sub + right;
  }

  // ---------------------------------------------------------------- titles

  /** `toUpperCase` of one character, restricted to ASCII letters. */
  function UpperChar(c: char): char {
    if 'a' <= c <= 'z' then (c as int - 32) as char else c
  }

  /** `key.charAt(0).toUpperCase() + key.slice(1)`. */
  function PriorityTitle(key: string): (t: string)
    ensures |t| == |key| && (key != "" ==> t[0] == UpperChar(key[0]) && t[1..] == key[1..])
  {
    if key == "" then "" else [UpperChar(key[0])] + key[1..]
  }

  /** `s.replace(/-/g, ' ')`. */
  function DashesToSpaces(s: string): (r: string)
    ensures |r| == |s|
    ensures forall i :: 0 <= i < |s| ==> r[i] == (if s[i] == '-' then ' ' else s[i])
  {
    if s == [] then []
    else DashesToSpaces(s[..|s| - 1]) + [if s[|s| - 1] == '-' then ' ' else s[|s| - 1]]
  }

  /**
   * The title of a non-priority document: its first character upper-cased and
   * every later `-` turned into a space.
   */
  function OtherTitle(key: string): (t: string)
    ensures |t| == |key|
    ensures key != "" ==> t[0] == UpperChar(key[0])
    ensures forall i :: 1 <= i < |key| ==> t[i] == (if key[i] == '-' then ' ' else key[i])
    ensures forall i :: 1 <= i < |key| ==> t[i] != '-'
  {
    if key == "" then "" else [UpperChar(key[0])] + DashesToSpaces(key[1..])
  }

  function TitleOf(key: string): string {
    if key in Priority then PriorityTitle(key) else OtherTitle(key)
  }

  /** One knowledge section as the template literal writes it. */
  function Section(title: string, content: string): string {
    "\n### " + title + "\n" + content + "\n"
  }

  // -------------------------------------------------------------- ordering

  /** The elements of `s` that `keep` accepts, in their order in `s`. */
  function Filter(s: seq<string>, keep: string -> bool): (r: seq<string>)
    ensures forall x :: x in r <==> x in s && keep(x)
  {
    if s == [] then []
    else
      var rest := Filter(s[..|s| - 1], keep);
      assert forall x :: x in s <==> x in s[..|s| - 1] || x == s[|s| - 1];
      if keep(s[|s| - 1]) then rest + [s[|s| - 1]] else rest
  }

  /** `if (knowledge[key])`: the document is there and its text is not empty. */
  function Present(kb: Knowledge): string -> bool {
    k => k in kb.text && kb.text[k] != ""
  }

  /** `!priorityFiles.includes(key)`. */
  function NotPriority(): string -> bool {
    k => k !in Priority
  }

  /** The priority documents that get a section. */
  function PriorityKeys(kb: Knowledge): seq<string> {
    Filter(Priority, Present(kb))
  }

  /** The other documents, in the record's insertion order. */
  function OtherKeys(kb: Knowledge): seq<string> {
    Filter(kb.order, NotPriority())
  }

  /** The documents that get a section, in the order they are written. */
  function EmittedKeys(kb: Knowledge): seq<string> {
    PriorityKeys(kb) + OtherKeys(kb)
  }

  /** Filtering keeps the order of the source sequence and its distinctness. */
  lemma {:induction false} FilterOrder(s: seq<string>, keep: string -> bool)
    requires Distinct(s)
    ensures Distinct(Filter(s, keep))
    ensures forall i, j :: 0 <= i < j < |Filter(s, keep)| ==> Before(s, Filter(s, keep)[i], Filter(s, keep)[j])
  {
    if s != [] {
      var p := s[..|s| - 1];
      var last := s[|s| - 1];
      FilterOrder(p, keep);
      var rest := Filter(p, keep);
      var r := Filter(s, keep);
      assert last !in p;
      forall i, j | 0 <= i < j < |r|
        ensures Before(s, r[i], r[j])
      {
        if j < |rest| {
          assert r[i] == rest[i] && r[j] == rest[j];
          assert Before(p, rest[i], rest[j]);
          var a, b :| 0 <= a < b < |p| && p[a] == rest[i] && p[b] == rest[j];
          assert s[a] == p[a] && s[b] == p[b];
        } else {
          assert r[j] == last && r[i] in p;
          var a :| 0 <= a < |p| && p[a] == r[i];
          assert s[a] == r[i] && s[|s| - 1] == r[j];
        }
      }
    }
  }

  /**
   * Which documents get a section: a priority document exactly when its text is
   * non-empty, any other document always, even with empty text.
   */
  lemma EmittedKeysMembership(kb: Knowledge, key: string)
    requires Valid(kb)
    ensures key in EmittedKeys(kb) <==> key in kb.text && (key in Priority ==> kb.text[key] != "")
  {
  }

  /** The order facts of `Filter(s1, keep1) + Filter(s2, keep2)` when `keep2` rejects everything in `s1`. */
  lemma ConcatFilterOrder(s1: seq<string>, keep1: string -> bool, s2: seq<string>, keep2: string -> bool)
    requires Distinct(s1) && Distinct(s2)
    requires forall x :: keep2(x) ==> x !in s1
    ensures Distinct(Filter(s1, keep1) + Filter(s2, keep2))
    ensures forall i, j :: 0 <= i < j < |Filter(s1, keep1) + Filter(s2, keep2)| &&
                           (Filter(s1, keep1) + Filter(s2, keep2))[j] in s1 ==>
              (Filter(s1, keep1) + Filter(s2, keep2))[i] in s1 &&
              Before(s1, (Filter(s1, keep1) + Filter(s2, keep2))[i], (Filter(s1, keep1) + Filter(s2, keep2))[j])
    ensures forall i, j :: 0 <= i < j < |Filter(s1, keep1) + Filter(s2, keep2)| &&
                           (Filter(s1, keep1) + Filter(s2, keep2))[i] !in s1 ==>
              (Filter(s1, keep1) + Filter(s2, keep2))[j] !in s1 &&
              Before(s2, (Filter(s1, keep1) + Filter(s2, keep2))[i], (Filter(s1, keep1) + Filter(s2, keep2))[j])
  {
    var P, O := Filter(s1, keep1), Filter(s2, keep2);
    var E := P + O;
    FilterOrder(s1, keep1);
    FilterOrder(s2, keep2);
    forall i, j | 0 <= i < j < |E|
      ensures E[i] != E[j]
      ensures E[j] in s1 ==> E[i] in s1 && Before(s1, E[i], E[j])
      ensures E[i] !in s1 ==> E[j] !in s1 && Before(s2, E[i], E[j])
    {
      if j < |P| {
        assert E[i] == P[i] && E[j] == P[j];
      } else if i >= |P| {
        assert E[i] == O[i - |P|] && E[j] == O[j - |P|];
      } else {
        assert E[i] == P[i] && E[j] == O[j - |P|];
        assert E[i] in P && E[j] in O;
      }
    }
  }

  /**
   * How the sections are ordered: each document once; priority documents in the
   * fixed order and all before any other; the others in insertion order.
   */
  lemma EmittedKeysOrder(kb: Knowledge)
    requires Valid(kb)
    ensures Distinct(EmittedKeys(kb))
    ensures forall i, j :: 0 <= i < j < |EmittedKeys(kb)| && EmittedKeys(kb)[j] in Priority ==>
              EmittedKeys(kb)[i] in Priority && Before(Priority, EmittedKeys(kb)[i], EmittedKeys(kb)[j])
    ensures forall i, j :: 0 <= i < j < |EmittedKeys(kb)| && EmittedKeys(kb)[i] !in Priority ==>
              EmittedKeys(kb)[j] !in Priority && Before(kb.order, EmittedKeys(kb)[i], EmittedKeys(kb)[j])
  {
    assert Distinct(Priority);
    ConcatFilterOrder(Priority, Present(kb), kb.order, NotPriority());
  }

  // -------------------------------------------------------------- sections

  /** The section `buildSystemPrompt` writes for document `k`. */
  function SectionFor(kb: Knowledge): string -> string {
    k => if k in kb.text then Section(TitleOf(k), kb.text[k]) else ""
  }

  /** The texts `render` gives for `keys`, concatenated in order. */
  function RenderKeys(keys: seq<string>, render: string -> string): string {
    if keys == [] then ""
    else RenderKeys(keys[..|keys| - 1], render) + render(keys[|keys| - 1])
  }

  /** `knowledgeSections` after both loops. */
  function KnowledgeSections(kb: Knowledge): string {
    RenderKeys(EmittedKeys(kb), SectionFor(kb))
  }

  lemma {:induction false} RenderAppend(a: seq<string>, b: seq<string>, render: string -> string)
    ensures RenderKeys(a + b, render) == RenderKeys(a, render) + RenderKeys(b, render)
    decreases |b|
  {
    if b != [] {
      var b' := b[..|b| - 1];
      assert (a + b)[..|a + b| - 1] == a + b';
      RenderAppend(a, b', render);
    } else {
      assert a + b == a;
    }
  }

  lemma RenderAround(pre: seq<string>, k: string, post: seq<string>, render: string -> string)
    ensures RenderKeys(pre + [k] + post, render) == RenderKeys(pre, render) + render(k) + RenderKeys(post, render)
  {
    RenderAppend(pre + [k], post, render);
    RenderSnoc(pre, k, render);
  }

  lemma SectionForKey(kb: Knowledge, key: string)
    requires key in kb.text
    ensures key in Priority ==> SectionFor(kb)(key) == Section(PriorityTitle(key), kb.text[key])
    ensures key !in Priority ==> SectionFor(kb)(key) == Section(OtherTitle(key), kb.text[key])
  {
  }

  /**
   * The sections text is the priority sections followed by the other sections,
   * and when the emitted documents are `pre`, then `key`, then `post`, the
   * section of `key`, under its title, sits between those of `pre` and `post`.
   */
  lemma SectionsLayout(kb: Knowledge, pre: seq<string>, key: string, post: seq<string>)
    requires Valid(kb) && EmittedKeys(kb) == pre + [key] + post
    ensures key in kb.text
    ensures KnowledgeSections(kb) ==
              RenderKeys(PriorityKeys(kb), SectionFor(kb)) + RenderKeys(OtherKeys(kb), SectionFor(kb))
    ensures KnowledgeSections(kb) ==
              RenderKeys(pre, SectionFor(kb)) + Section(TitleOf(key), kb.text[key]) + RenderKeys(post, SectionFor(kb))
  {
    assert key in EmittedKeys(kb);
    RenderAppend(PriorityKeys(kb), OtherKeys(kb), SectionFor(kb));
    RenderAround(pre, key, post, SectionFor(kb));
  }

  lemma FilterStep(s: seq<string>, i: nat, keep: string -> bool)
    requires i < |s|
    ensures keep(s[i]) ==> Filter(s[..i + 1], keep) == Filter(s[..i], keep) + [s[i]]
    ensures !keep(s[i]) ==> Filter(s[..i + 1], keep) == Filter(s[..i], keep)
  {
    assert s[..i + 1][..i] == s[..i];
  }

  lemma RenderSnoc(keys: seq<string>, k: string, render: string -> string)
    ensures RenderKeys(keys + [k], render) == RenderKeys(keys, render) + render(k)
  {
    assert (keys + [k])[..|keys|] == keys;
  }

  /** The first loop of `buildSystemPrompt`: sections for the priority documents that have text. */
  method PrioritySections(kb: Knowledge) returns (knowledgeSections: string)
    ensures knowledgeSections == RenderKeys(PriorityKeys(kb), SectionFor(kb))
  {
    ghost var render := SectionFor(kb);
    var priorityFiles := Priority;
    knowledgeSections := "";
    for i := 0 to |priorityFiles|
      invariant knowledgeSections == RenderKeys(Filter(priorityFiles[..i], Present(kb)), render)
    {
      var key := priorityFiles[i];
      FilterStep(priorityFiles, i, Present(kb));
      if key in kb.text && kb.text[key] != "" {
        SectionForKey(kb, key);
        RenderSnoc(Filter(priorityFiles[..i], Present(kb)), key, render);
        var title := PriorityTitle(key);
        knowledgeSections := knowledgeSections + Section(title, kb.text[key]);
      }
    }
    assert priorityFiles[..|priorityFiles|] == priorityFiles;
  }

  /** The second loop of `buildSystemPrompt`: sections for every other document, in insertion order. */
  method OtherSections(kb: Knowledge) returns (knowledgeSections: string)
    requires Valid(kb)
    ensures knowledgeSections == RenderKeys(OtherKeys(kb), SectionFor(kb))
  {
    ghost var render := SectionFor(kb);
    knowledgeSections := "";
    for i := 0 to |kb.order|
      invariant knowledgeSections == RenderKeys(Filter(kb.order[..i], NotPriority()), render)
    {
      var key := kb.order[i];
      FilterStep(kb.order, i, NotPriority());
      if key !in Priority {
        assert key in kb.text;
        SectionForKey(kb, key);
        RenderSnoc(Filter(kb.order[..i], NotPriority()), key, render);
        var title := OtherTitle(key);
        knowledgeSections := knowledgeSections + Section(title, kb.text[key]);
      }
    }
    assert kb.order[..|kb.order|] == kb.order;
  }

  /** `knowledgeSections` accumulated over both loops. */
  method BuildSections(kb: Knowledge) returns (knowledgeSections: string)
    requires Valid(kb)
    ensures knowledgeSections == KnowledgeSections(kb)
  {
    knowledgeSections := PrioritySections(kb);
    var others := OtherSections(kb);
    knowledgeSections := knowledgeSections + others;
    RenderAppend(PriorityKeys(kb), OtherKeys(kb), SectionFor(kb));
  }

  // --------------------------------------------------------------- persona

  /** The identity the model is told to play: full name and short name, as shown in the prompt. */
  datatype Persona = Persona(fullName: string, name: string)

  /** The message of the `TypeError` a value that cannot be converted to text throws. */
  const ConversionError: string := "Cannot convert object to primitive value"

  /** The parsed `facts` document: None when there is no non-empty `facts` text or its parse throws. */
  function FactsDocument(kb: Knowledge, codec: Codec): Option<Json> {
    if "facts" in kb.text && kb.text["facts"] != "" then codec.parse(kb.text["facts"]) else None
  }

  /** `facts.key`, when there is a parsed document and it has that field. */
  function FactsField(kb: Knowledge, codec: Codec, key: string): Option<Json> {
    match FactsDocument(kb, codec)
    case None => None
    case Some(facts) => Field(facts, key)
  }

  /** `facts.key` is truthy, so `facts.key || fallback` takes it instead of the default. */
  predicate Overrides(kb: Knowledge, codec: Codec, key: string) {
    FactsField(kb, codec, key).Some? && Truthy(FactsField(kb, codec, key).value)
  }

  /** `facts.key || fallback` as the template literal shows it; None when the conversion throws. */
  function ShownField(kb: Knowledge, codec: Codec, key: string, fallback: string): Option<string> {
    if Overrides(kb, codec, key) then Show(FactsField(kb, codec, key).value) else Some(fallback)
  }

  /**
   * The persona: each of `full_name` and `name` that the `facts` document
   * holds as a truthy value replaces its default, independently of the other.
   * A value that cannot be shown as text makes building the prompt throw.
   */
  function ResolvePersona(kb: Knowledge, codec: Codec): Result<Persona, string> {
    match (ShownField(kb, codec, "full_name", DefaultFullName), ShownField(kb, codec, "name", DefaultName))
    case (Some(fullName), Some(name)) => Success(Persona(fullName, name))
    case _ => Failure(ConversionError)
  }

  /** The last field named `key` in `fields` is (`key`, `v`). */
  ghost predicate LastField(fields: seq<(string, Json)>, key: string, v: Json) {
    exists i :: 0 <= i < |fields| && fields[i] == (key, v) &&
                forall k :: i < k < |fields| ==> fields[k].0 != key
  }

  lemma LastFieldIsField(fields: seq<(string, Json)>, key: string, v: Json)
    requires LastField(fields, key, v)
    ensures Field(JObj(fields), key) == Some(v)
  {
    var i :| 0 <= i < |fields| && fields[i] == (key, v) && forall k :: i < k < |fields| ==> fields[k].0 != key;
    var r := LastValue(fields, key);
    var i' :| 0 <= i' < |fields| && fields[i'] == (key, r.value) &&
              forall k :: i' < k < |fields| ==> fields[k].0 != key;
    assert i == i';
  }

  /**
   * A `facts` object whose last `key` field is the string `s` gives `s` for
   * that field, and it overrides the default exactly when it is not empty.
   */
  lemma FactsStringField(kb: Knowledge, codec: Codec, fields: seq<(string, Json)>, key: string, s: string)
    requires FactsDocument(kb, codec) == Some(JObj(fields))
    requires LastField(fields, key, JStr(s))
    ensures FactsField(kb, codec, key) == Some(JStr(s))
    ensures Overrides(kb, codec, key) <==> s != ""
  {
    LastFieldIsField(fields, key, JStr(s));
  }

  /** A field that the document does not hold as a truthy value keeps its default, whatever the other field is. */
  lemma PersonaFallsBack(kb: Knowledge, codec: Codec)
    ensures ResolvePersona(kb, codec).Success? && !Overrides(kb, codec, "full_name") ==>
              ResolvePersona(kb, codec).value.fullName == DefaultFullName
    ensures ResolvePersona(kb, codec).Success? && !Overrides(kb, codec, "name") ==>
              ResolvePersona(kb, codec).value.name == DefaultName
  {
  }

  /**
   * A truthy field of the document replaces its default with the value as
   * text, a non-empty string verbatim, whatever the other field is.
   */
  lemma PersonaFromFacts(kb: Knowledge, codec: Codec)
    ensures ResolvePersona(kb, codec).Success? && Overrides(kb, codec, "full_name") ==>
              Show(FactsField(kb, codec, "full_name").value) == Some(ResolvePersona(kb, codec).value.fullName)
    ensures ResolvePersona(kb, codec).Success? && Overrides(kb, codec, "name") ==>
              Show(FactsField(kb, codec, "name").value) == Some(ResolvePersona(kb, codec).value.name)
    ensures ResolvePersona(kb, codec).Success? && Overrides(kb, codec, "full_name") &&
            FactsField(kb, codec, "full_name").value.JStr? ==>
              ResolvePersona(kb, codec).value.fullName == FactsField(kb, codec, "full_name").value.s
    ensures ResolvePersona(kb, codec).Success? && Overrides(kb, codec, "name") &&
            FactsField(kb, codec, "name").value.JStr? ==>
              ResolvePersona(kb, codec).value.name == FactsField(kb, codec, "name").value.s
  {
  }

  /** Resolving the persona throws exactly when a field that overrides its default cannot be shown as text. */
  lemma PersonaFailure(kb: Knowledge, codec: Codec)
    ensures ResolvePersona(kb, codec).Failure? <==>
              (Overrides(kb, codec, "full_name") && !Convertible(FactsField(kb, codec, "full_name").value)) ||
              (Overrides(kb, codec, "name") && !Convertible(FactsField(kb, codec, "name").value))
    ensures ResolvePersona(kb, codec).Failure? ==> ResolvePersona(kb, codec).error == ConversionError
  {
  }

  /**
   * Both defaults are used when neither field overrides, in particular when
   * there is no `facts` document, its text does not parse, or it parses to
   * something other than an object (`null`, an array, a string, a number).
   */
  lemma PersonaDefaults(kb: Knowledge, codec: Codec)
    ensures !Overrides(kb, codec, "full_name") && !Overrides(kb, codec, "name") ==>
              ResolvePersona(kb, codec) == Success(Persona(DefaultFullName, DefaultName))
    ensures FactsDocument(kb, codec).None? || !FactsDocument(kb, codec).value.JObj? ==>
              ResolvePersona(kb, codec) == Success(Persona(DefaultFullName, DefaultName))
  {
  }

  /** `{"full_name": "Jane Q", "name": 42}` gives the string verbatim and the number as its digits. */
  lemma PersonaMixedExample(kb: Knowledge, codec: Codec)
    requires FactsDocument(kb, codec) == Some(JObj([("full_name", JStr("Jane Q")), ("name", JNum(42))]))
    ensures ResolvePersona(kb, codec) == Success(Persona("Jane Q", "42"))
  {
    assert FactsField(kb, codec, "full_name") == Some(JStr("Jane Q"));
    assert FactsField(kb, codec, "name") == Some(JNum(42));
    assert NatToString(42) == NatToString(4) + [DigitChar(2)];
    assert NatToString(42) == "42";
    assert Show(JNum(42)) == Some("42");
  }

  /** `{"full_name": "Jane Q"}` replaces the full name only; the short name keeps its default. */
  lemma PersonaFullNameOnlyExample(kb: Knowledge, codec: Codec)
    requires FactsDocument(kb, codec) == Some(JObj([("full_name", JStr("Jane Q"))]))
    ensures ResolvePersona(kb, codec) == Success(Persona("Jane Q", DefaultName))
  {
    assert FactsField(kb, codec, "full_name") == Some(JStr("Jane Q"));
    assert FactsField(kb, codec, "name") == None;
  }

  /** `{"name": {"toString": 1}}` makes building the prompt throw. */
  lemma PersonaThrowExample(kb: Knowledge, codec: Codec)
    requires FactsDocument(kb, codec) == Some(JObj([("name", JObj([("toString", JNum(1))]))]))
    ensures ResolvePersona(kb, codec) == Failure(ConversionError)
  {
    assert FactsField(kb, codec, "name") == Some(JObj([("toString", JNum(1))]));
  }

  // -------------------------------------------------------------- template

  /** The values interpolated into the prompt template. */
  datatype Hole = FullNameHole | NameHole | SectionsHole | NowHole

  datatype Piece = Text(text: string) | Slot(hole: Hole)

  /** The template's text up to its first interpolation, the full name. */
  const RoleLead: string := "# Your Role\n\nYou are an AI Agent that is acting as a digital twin of "

  /**
   * The prompt template as its interpolations, in source order. The text up
   * to the short name, and the headings around the knowledge sections and the
   * time, are written out; each later run of instruction prose between two
   * interpolations is reduced to a line break.
   */
  const Template: seq<Piece> := [
    Text(RoleLead), Slot(FullNameHole),
    Text(", who goes by "), Slot(NameHole),
    Text("\n\n"), Slot(FullNameHole), Text("\n"), Slot(NameHole),
    Text("\n"), Slot(NameHole), Text("\n"), Slot(NameHole),
    Text("\n\n## Important Context - Knowledge Base\n"), Slot(SectionsHole),
    Text("\n\n## Current Date/Time\n"), Slot(NowHole),
    Text("\n\n## Your Task\n\n"), Slot(NameHole), Text("\n"), Slot(NameHole), Text("\n"), Slot(NameHole),
    Text("\n"), Slot(NameHole), Text("\n"), Slot(NameHole),
    Text("\n"), Slot(NameHole),
    Text("\n\n"), Slot(NameHole),
    Text("\n\n## Critical Rules\n\n"), Slot(NameHole)
  ]

  function Fill(h: Hole, p: Persona, sections: string, now: string): string {
    match h
    case FullNameHole => p.fullName
    case NameHole => p.name
    case SectionsHole => sections
    case NowHole => now
  }

  function RenderPieces(ps: seq<Piece>, p: Persona, sections: string, now: string): string {
    if ps == [] then ""
    else
      var last := ps[|ps| - 1];
      RenderPieces(ps[..|ps| - 1], p, sections, now) +
      (match last case Text(t) => t case Slot(h) => Fill(h, p, sections, now))
  }

  lemma {:induction false} RenderPiecesAppend(a: seq<Piece>, b: seq<Piece>, p: Persona, sections: string, now: string)
    ensures RenderPieces(a + b, p, sections, now) == RenderPieces(a, p, sections, now) + RenderPieces(b, p, sections, now)
    decreases |b|
  {
    if b != [] {
      var b' := b[..|b| - 1];
      assert (a + b)[..|a + b| - 1] == a + b';
      RenderPiecesAppend(a, b', p, sections, now);
    } else {
      assert a + b == a;
    }
  }

  /** A rendering is the text before piece `i`, then piece `i`'s text, then the text after it. */
  lemma RenderAt(ps: seq<Piece>, i: nat, p: Persona, sections: string, now: string)
    requires i < |ps| && ps[i].Slot?
    ensures RenderPieces(ps, p, sections, now) ==
              RenderPieces(ps[..i], p, sections, now) + Fill(ps[i].hole, p, sections, now) +
              RenderPieces(ps[i + 1..], p, sections, now)
  {
    var pre := ps[..i + 1];
    assert pre[..|pre| - 1] == ps[..i];
    RenderPiecesAppend(pre, ps[i + 1..], p, sections, now);
    assert pre + ps[i + 1..] == ps;
  }

  /** Every slot of a template shows its value in the rendered text. */
  lemma SlotShown(ps: seq<Piece>, i: nat, p: Persona, sections: string, now: string)
    requires i < |ps| && ps[i].Slot?
    ensures Contains(RenderPieces(ps, p, sections, now), Fill(ps[i].hole, p, sections, now))
  {
    RenderAt(ps, i, p, sections, now);
    ContainsMiddle(RenderPieces(ps[..i], p, sections, now), Fill(ps[i].hole, p, sections, now),
                   RenderPieces(ps[i + 1..], p, sections, now));
  }

  /** A template with the four holes at these places shows all four values. */
  lemma SlotsShown(ps: seq<Piece>, p: Persona, sections: string, now: string)
    requires |ps| > 15
    requires ps[1] == Slot(FullNameHole) && ps[3] == Slot(NameHole)
    requires ps[13] == Slot(SectionsHole) && ps[15] == Slot(NowHole)
    ensures Contains(RenderPieces(ps, p, sections, now), p.fullName)
    ensures Contains(RenderPieces(ps, p, sections, now), p.name)
    ensures Contains(RenderPieces(ps, p, sections, now), sections)
    ensures Contains(RenderPieces(ps, p, sections, now), now)
  {
    SlotShown(ps, 1, p, sections, now);
    SlotShown(ps, 3, p, sections, now);
    SlotShown(ps, 13, p, sections, now);
    SlotShown(ps, 15, p, sections, now);
  }

  /** The filled template names the persona by full and short name, and holds the sections and the time. */
  lemma TemplateShows(p: Persona, sections: string, now: string)
    ensures Contains(RenderPieces(Template, p, sections, now), p.fullName)
    ensures Contains(RenderPieces(Template, p, sections, now), p.name)
    ensures Contains(RenderPieces(Template, p, sections, now), sections)
    ensures Contains(RenderPieces(Template, p, sections, now), now)
  {
    SlotsShown(Template, p, sections, now);
  }

  /** The role heading and the first sentence the template opens with, up to the short name. */
  function Opening(p: Persona): string {
    RoleLead + p.fullName + ", who goes by " + p.name
  }

  /** The filled template starts with the role heading for its persona. */
  lemma TemplateOpens(p: Persona, sections: string, now: string)
    ensures Opening(p) <= RenderPieces(Template, p, sections, now)
  {
    var head := Template[..4];
    assert head == [Text(RoleLead), Slot(FullNameHole), Text(", who goes by "), Slot(NameHole)];
    assert head[..1][..0] == [];
    assert RenderPieces(head[..1], p, sections, now) == RoleLead;
    assert head[..2][..1] == head[..1];
    assert RenderPieces(head[..2], p, sections, now) == RoleLead + p.fullName;
    assert head[..3][..2] == head[..2];
    assert RenderPieces(head[..3], p, sections, now) == RoleLead + p.fullName + ", who goes by ";
    assert head[..3] == head[..|head| - 1];
    assert RenderPieces(head, p, sections, now) == Opening(p);
    RenderPiecesAppend(head, Template[4..], p, sections, now);
    assert head + Template[4..] == Template;
  }

  /** The system prompt for a knowledge base at instant `now`; it fails when the persona cannot be shown. */
  function SystemPrompt(kb: Knowledge, now: string, codec: Codec): Result<string, string> {
    match ResolvePersona(kb, codec)
    case Failure(reason) => Failure(reason)
    case Success(persona) => Success(RenderPieces(Template, persona, KnowledgeSections(kb), now))
  }

  /**
   * The prompt is built exactly when the persona resolves, and then names each
   * field as the document gives it when it overrides its default, and the
   * default otherwise, each field independently of the other.
   */
  lemma PromptNamesPersona(kb: Knowledge, now: string, codec: Codec)
    ensures SystemPrompt(kb, now, codec).Success? <==> ResolvePersona(kb, codec).Success?
    ensures SystemPrompt(kb, now, codec).Success? && Overrides(kb, codec, "full_name") ==>
              Contains(SystemPrompt(kb, now, codec).value, Show(FactsField(kb, codec, "full_name").value).value)
    ensures SystemPrompt(kb, now, codec).Success? && !Overrides(kb, codec, "full_name") ==>
              Contains(SystemPrompt(kb, now, codec).value, DefaultFullName)
    ensures SystemPrompt(kb, now, codec).Success? && Overrides(kb, codec, "name") ==>
              Contains(SystemPrompt(kb, now, codec).value, Show(FactsField(kb, codec, "name").value).value)
    ensures SystemPrompt(kb, now, codec).Success? && !Overrides(kb, codec, "name") ==>
              Contains(SystemPrompt(kb, now, codec).value, DefaultName)
    ensures SystemPrompt(kb, now, codec).Success? ==>
              Opening(ResolvePersona(kb, codec).value) <= SystemPrompt(kb, now, codec).value
  {
    if ResolvePersona(kb, codec).Success? {
      PersonaFallsBack(kb, codec);
      PersonaFromFacts(kb, codec);
      TemplateShows(ResolvePersona(kb, codec).value, KnowledgeSections(kb), now);
      TemplateOpens(ResolvePersona(kb, codec).value, KnowledgeSections(kb), now);
    }
  }

  /** When neither field overrides its default, the prompt is built and names the default persona. */
  lemma PromptNamesDefaults(kb: Knowledge, now: string, codec: Codec)
    requires !Overrides(kb, codec, "full_name") && !Overrides(kb, codec, "name")
    ensures SystemPrompt(kb, now, codec).Success?
    ensures Contains(SystemPrompt(kb, now, codec).value, DefaultFullName)
    ensures Contains(SystemPrompt(kb, now, codec).value, DefaultName)
    ensures Opening(Persona(DefaultFullName, DefaultName)) <= SystemPrompt(kb, now, codec).value
  {
    PersonaDefaults(kb, codec);
    TemplateShows(Persona(DefaultFullName, DefaultName), KnowledgeSections(kb), now);
    TemplateOpens(Persona(DefaultFullName, DefaultName), KnowledgeSections(kb), now);
  }

  /** A built prompt holds the knowledge sections and the time it was built at. */
  lemma PromptHoldsSections(kb: Knowledge, now: string, codec: Codec)
    ensures SystemPrompt(kb, now, codec).Success? ==>
              Contains(SystemPrompt(kb, now, codec).value, KnowledgeSections(kb)) &&
              Contains(SystemPrompt(kb, now, codec).value, now)
  {
    if ResolvePersona(kb, codec).Success? {
      TemplateShows(ResolvePersona(kb, codec).value, KnowledgeSections(kb), now);
    }
  }

  /** `buildSystemPrompt`, including the load it starts with: a load that throws fails it. */
  function PromptFor(dir: Directory, now: string, codec: Codec): Result<string, string> {
    match LoadDirectory(dir, codec)
    case Failure(reason) => Failure(reason)
    case Success(kb) => SystemPrompt(kb, now, codec)
  }

  /** Building the prompt fails exactly when the load fails or the loaded persona cannot be shown. */
  lemma PromptForFailure(dir: Directory, now: string, codec: Codec)
    ensures PromptFor(dir, now, codec).Failure? <==>
              LoadDirectory(dir, codec).Failure? || ResolvePersona(LoadDirectory(dir, codec).value, codec).Failure?
  {
  }

  method BuildSystemPrompt(dir: Directory, now: string, codec: Codec) returns (r: Result<string, string>)
    ensures r == PromptFor(dir, now, codec)
  {
    var loaded := LoadKnowledgeBase(dir, codec);
    if loaded.Failure? {
      return Failure(loaded.error);
    }
    var knowledge := loaded.value;
    LoadDirectoryValid(dir, codec);
    var persona := ResolvePersona(knowledge, codec);
    var knowledgeSections := BuildSections(knowledge);
    if persona.Failure? {
      return Failure(persona.error);
    }
    r := Success(RenderPieces(Template, persona.value, knowledgeSections, now));
  }
}
