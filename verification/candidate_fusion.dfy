/** Candidate fusion: for one token of a sentence, the normalization
    candidates of the two lookup tables, of the informal-morphology
    conversion and of the gated spelling corrector, merged into one
    insertion-ordered duplicate-free list that never comes out empty. */
module CandidateFusion {
  import opened Wrappers
  import opened LookupTable
  import opened OrderedSet

  /** A token as the tokenizer hands it over: its text and its lexer type. */
  datatype Token = Token(text: string, tokenType: int)

  /** The collaborators one normalizer holds, over the analyzer's analysis
      type `A`; each is an uninterpreted function here. */
  datatype Services<!A> = Services(
    /** the `lookup-from-graph` table */
    randomWalk: MultiMap,
    /** the `ascii-map` table */
    asciiLookup: MultiMap,
    /** the analyzer built on the informal morphotactics */
    informalAnalyses: string -> seq<A>,
    /** `containsInformalMorpheme()` of an analysis */
    containsInformalMorpheme: A -> bool,
    /** the surfaces the generator produces from the analysis' dictionary
        item and its informal morphemes mapped to formal ones */
    formalSurfaces: A -> seq<string>,
    /** `NormalizationPreprocessor.isWord` */
    isWord: Token -> bool,
    /** whether the formal morphology has at least one analysis of a word */
    hasAnalysis: string -> bool,
    /** the spell checker's ranked suggestions for a word, given the texts
        of the neighbouring tokens (absent at the sentence ends) */
    suggest: (string, Option<string>, Option<string>) -> seq<string>)

  /** The words the source lets the spelling corrector touch: longer than
      five characters. */
  const SpellMinLength: nat := 5

  /** How many spelling suggestions are kept. */
  const SpellLimit: nat := 3

  /** The candidate one informal-grammar analysis yields: the token itself
      for a formal analysis; for an informal one, the first surface form the
      generator produces, or the token itself if it produces none. */
  function AnalysisCandidate<A>(sv: Services<A>, current: string, a: A): (r: string)
    ensures r == current || r in sv.formalSurfaces(a)
  {
    if sv.containsInformalMorpheme(a) then
      var generated := sv.formalSurfaces(a);
      if |generated| > 0 then generated[0] else current
    else current
  }

  /** The candidates of the analyses, one per analysis, in order. */
  function AnalysisCandidates<A>(sv: Services<A>, current: string, analyses: seq<A>): (r: seq<string>)
    ensures |r| == |analyses|
    ensures forall i :: 0 <= i < |r| ==> r[i] == AnalysisCandidate(sv, current, analyses[i])
  {
    if |analyses| == 0 then []
    else
      AnalysisCandidates(sv, current, analyses[..|analyses| - 1])
        + [AnalysisCandidate(sv, current, analyses[|analyses| - 1])]
  }

  /** Some analysis uses no informal morpheme. */
  predicate HasFormalAnalysis<A>(sv: Services<A>, analyses: seq<A>) {
    exists i :: 0 <= i < |analyses| && !sv.containsInformalMorpheme(analyses[i])
  }

  /** The loop over the analyses: adds each analysis' candidate to the set
      and raises `hasFormalAnalysis` at the first formal analysis. */
  function AnalysisLoop<A>(sv: Services<A>, current: string, analyses: seq<A>, cands: seq<string>)
    : (r: (seq<string>, bool))
    requires NoDuplicates(cands)
    ensures r.0 == AddAll(cands, AnalysisCandidates(sv, current, analyses))
    ensures r.1 <==> HasFormalAnalysis(sv, analyses)
  {
    if |analyses| == 0 then (cands, false)
    else
      var init := analyses[..|analyses| - 1];
      var a := analyses[|analyses| - 1];
      var (c, hasFormal) := AnalysisLoop(sv, current, init, cands);
      var xs := AnalysisCandidates(sv, current, analyses);
      assert xs[..|xs| - 1] == AnalysisCandidates(sv, current, init);
      assert HasFormalAnalysis(sv, analyses) <==> HasFormalAnalysis(sv, init) || !sv.containsInformalMorpheme(a) by {
        assert forall i :: 0 <= i < |init| ==> analyses[i] == init[i];
      }
      if sv.containsInformalMorpheme(a) then
        (Add(c, AnalysisCandidate(sv, current, a)), hasFormal)
      else
        (Add(c, current), true)
  }

  /** `getSpellCandidates`: the corrector's suggestions, asked for only
      when the token is a word that the formal morphology cannot analyse. */
  function SpellCandidates<A>(sv: Services<A>, token: Token, previous: Option<string>, next: Option<string>)
    : (r: seq<string>)
    ensures r != [] ==> sv.isWord(token) && !sv.hasAnalysis(token.text)
    ensures sv.isWord(token) && !sv.hasAnalysis(token.text) ==>
      r == sv.suggest(token.text, previous, next)
  {
    var current := token.text;
    if sv.isWord(token) && !sv.hasAnalysis(current) then
      var candidates := sv.suggest(current, previous, next);
      if |candidates| > 0 then candidates else []
    else []
  }

  /** The first `n` elements of `s`, or all of them if there are fewer. */
  function Take(s: seq<string>, n: nat): (r: seq<string>)
    ensures |r| <= n && |r| <= |s|
    ensures r == s[..|r|]
    ensures |r| == if |s| < n then |s| else n
  {
    if |s| > n then s[..n] else s
  }

  /** What the spelling corrector contributes, stated with all four
      conditions it is gated on. */
  function SpellContribution<A>(sv: Services<A>, token: Token, previous: Option<string>, next: Option<string>)
    : seq<string>
  {
    var analyses := sv.informalAnalyses(token.text);
    if && !HasFormalAnalysis(sv, analyses)
       && |token.text| > SpellMinLength
       && sv.isWord(token)
       && !sv.hasAnalysis(token.text)
    then Take(sv.suggest(token.text, previous, next), SpellLimit)
    else []
  }

  /** The spelling step as the source writes it: asked for when no formal
      analysis was seen (or there was no analysis at all) and the token is
      longer than five characters, cut to the first three suggestions. It is
      the four-condition gate of `SpellContribution`. */
  function GatedSpellCandidates<A>(sv: Services<A>, token: Token, previous: Option<string>, next: Option<string>,
                                   hasFormalAnalysis: bool, analysisCount: nat): (r: seq<string>)
    requires hasFormalAnalysis <==> HasFormalAnalysis(sv, sv.informalAnalyses(token.text))
    requires analysisCount == |sv.informalAnalyses(token.text)|
    ensures r == SpellContribution(sv, token, previous, next)
  {
    if (!hasFormalAnalysis || analysisCount == 0) && |token.text| > SpellMinLength then
      var spellCandidates := SpellCandidates(sv, token, previous, next);
      if |spellCandidates| > SpellLimit then spellCandidates[..SpellLimit] else spellCandidates
    else []
  }

  /** What the sources after the random-walk table propose, in order:
      ASCII table, analyses, spelling suggestions. */
  function LaterProposals<A>(sv: Services<A>, token: Token, previous: Option<string>, next: Option<string>)
    : seq<string>
  {
    var current := token.text;
    Get(sv.asciiLookup, current)
      + AnalysisCandidates(sv, current, sv.informalAnalyses(current))
      + SpellContribution(sv, token, previous, next)
  }

  /** Every candidate every source proposes, in the order of the sources:
      random-walk table first, then the others. */
  function Proposals<A>(sv: Services<A>, token: Token, previous: Option<string>, next: Option<string>)
    : seq<string>
  {
    Get(sv.randomWalk, token.text) + LaterProposals(sv, token, previous, next)
  }

  /** The loop body of `normalize` for one token: the candidate list as the
      source builds it, step by step into a linked hash set. It is never
      empty and holds no word twice; `FusedCandidates` says which words, in
      which order. */
  function FuseCandidates<A>(sv: Services<A>, token: Token, previous: Option<string>, next: Option<string>)
    : (r: seq<string>)
    ensures NoDuplicates(r) && |r| > 0
  {
    var current := token.text;
    var fromTables := AddAll(AddAll([], Get(sv.randomWalk, current)), Get(sv.asciiLookup, current));
    var analyses := sv.informalAnalyses(current);
    var (withAnalyses, hasFormalAnalysis) := AnalysisLoop(sv, current, analyses, fromTables);
    var spell := GatedSpellCandidates(sv, token, previous, next, hasFormalAnalysis, |analyses|);
    var candidates := AddAll(withAnalyses, spell);
    if |candidates| == 0 then [current] else candidates
  }

  /** The fused list holds each proposal once, in the order of first
      proposal, and is exactly the token itself when nothing is proposed. */
  lemma FusedCandidates<A>(sv: Services<A>, token: Token, previous: Option<string>, next: Option<string>)
    ensures Proposals(sv, token, previous, next) == [] ==> FuseCandidates(sv, token, previous, next) == [token.text]
    ensures Proposals(sv, token, previous, next) != [] ==>
      && FuseCandidates(sv, token, previous, next) == AddAll([], Proposals(sv, token, previous, next))
      && InFirstOccurrenceOrder(FuseCandidates(sv, token, previous, next), Proposals(sv, token, previous, next))
  {
    var current := token.text;
    var fromTables := AddAll(AddAll([], Get(sv.randomWalk, current)), Get(sv.asciiLookup, current));
    var analyses := sv.informalAnalyses(current);
    var (withAnalyses, hasFormalAnalysis) := AnalysisLoop(sv, current, analyses, fromTables);
    var spell := GatedSpellCandidates(sv, token, previous, next, hasFormalAnalysis, |analyses|);
    FusedOrder(sv, token, previous, next, fromTables, withAnalyses, spell, AddAll(withAnalyses, spell));
  }

  /** The source's incremental construction agrees with adding all
      proposals at once. */
  lemma FusedOrder<A>(sv: Services<A>, token: Token, previous: Option<string>, next: Option<string>,
                      fromTables: seq<string>, withAnalyses: seq<string>, spell: seq<string>,
                      candidates: seq<string>)
    requires fromTables == AddAll(AddAll([], Get(sv.randomWalk, token.text)), Get(sv.asciiLookup, token.text))
    requires withAnalyses == AddAll(fromTables, AnalysisCandidates(sv, token.text, sv.informalAnalyses(token.text)))
    requires spell == SpellContribution(sv, token, previous, next)
    requires candidates == AddAll(withAnalyses, spell)
    ensures candidates == AddAll([], Proposals(sv, token, previous, next))
    ensures InFirstOccurrenceOrder(candidates, Proposals(sv, token, previous, next))
  {
    var current := token.text;
    var rw := Get(sv.randomWalk, current);
    var ascii := Get(sv.asciiLookup, current);
    var an := AnalysisCandidates(sv, current, sv.informalAnalyses(current));
    var first := AddAll([], rw);
    AddAllConcat(first, ascii, an);
    AddAllConcat(first, ascii + an, spell);
    AddAllConcat([], rw, ascii + an + spell);
    AddAllFromEmpty(Proposals(sv, token, previous, next));
  }

  /** Without all four spelling conditions, every candidate comes from a
      table, from an analysis, or is the token itself; in particular a token
      of at most five characters never gets a spelling candidate. */
  lemma NoSpellingUnlessGated<A>(sv: Services<A>, token: Token, previous: Option<string>, next: Option<string>)
    requires || HasFormalAnalysis(sv, sv.informalAnalyses(token.text))
             || |token.text| <= SpellMinLength
             || !sv.isWord(token)
             || sv.hasAnalysis(token.text)
    ensures forall c :: c in FuseCandidates(sv, token, previous, next) ==>
      || c in Get(sv.randomWalk, token.text)
      || c in Get(sv.asciiLookup, token.text)
      || c in AnalysisCandidates(sv, token.text, sv.informalAnalyses(token.text))
      || c == token.text
  {
    FusedCandidates(sv, token, previous, next);
    assert SpellContribution(sv, token, previous, next) == [];
  }

  /** Under all four conditions, the first (at most three) suggestions of
      the corrector are all candidates. */
  lemma SpellingWhenGated<A>(sv: Services<A>, token: Token, previous: Option<string>, next: Option<string>)
    requires !HasFormalAnalysis(sv, sv.informalAnalyses(token.text))
    requires |token.text| > SpellMinLength
    requires sv.isWord(token) && !sv.hasAnalysis(token.text)
    ensures var suggestions := sv.suggest(token.text, previous, next);
      forall i :: 0 <= i < |suggestions| && i < SpellLimit ==>
        suggestions[i] in FuseCandidates(sv, token, previous, next)
  {
    FusedCandidates(sv, token, previous, next);
    var suggestions := sv.suggest(token.text, previous, next);
    var kept := Take(suggestions, SpellLimit);
    assert SpellContribution(sv, token, previous, next) == kept;
    forall i | 0 <= i < |suggestions| && i < SpellLimit
      ensures suggestions[i] in FuseCandidates(sv, token, previous, next)
    {
      assert suggestions[i] == kept[i];
      assert kept[i] in Proposals(sv, token, previous, next);
    }
  }

  /** At most three suggestions of the corrector are ever proposed. */
  lemma SpellingAtMostThree<A>(sv: Services<A>, token: Token, previous: Option<string>, next: Option<string>)
    ensures |SpellContribution(sv, token, previous, next)| <= SpellLimit
  {
  }

  /** Each analysis contributes its candidate; a formal analysis makes the
      token itself a candidate. */
  lemma AnalysesContribute<A>(sv: Services<A>, token: Token, previous: Option<string>, next: Option<string>)
    ensures var analyses := sv.informalAnalyses(token.text);
      forall i :: 0 <= i < |analyses| ==>
        AnalysisCandidate(sv, token.text, analyses[i]) in FuseCandidates(sv, token, previous, next)
    ensures HasFormalAnalysis(sv, sv.informalAnalyses(token.text)) ==>
      token.text in FuseCandidates(sv, token, previous, next)
  {
    FusedCandidates(sv, token, previous, next);
    var analyses := sv.informalAnalyses(token.text);
    var an := AnalysisCandidates(sv, token.text, analyses);
    var proposals := Proposals(sv, token, previous, next);
    forall i | 0 <= i < |analyses|
      ensures AnalysisCandidate(sv, token.text, analyses[i]) in FuseCandidates(sv, token, previous, next)
    {
      assert an[i] in proposals;
    }
    if HasFormalAnalysis(sv, analyses) {
      var i :| 0 <= i < |analyses| && !sv.containsInformalMorpheme(analyses[i]);
      assert an[i] == token.text;
      assert an[i] in proposals;
    }
  }
  /** An informal analysis contributes the generator's first surface form,
      and the token itself only when the generator produces nothing. */
  lemma InformalContributes<A>(sv: Services<A>, token: Token, previous: Option<string>, next: Option<string>, i: nat)
    requires i < |sv.informalAnalyses(token.text)|
    requires sv.containsInformalMorpheme(sv.informalAnalyses(token.text)[i])
    ensures var g := sv.formalSurfaces(sv.informalAnalyses(token.text)[i]);
      && (|g| > 0 ==> g[0] in FuseCandidates(sv, token, previous, next))
      && (|g| == 0 ==> token.text in FuseCandidates(sv, token, previous, next))
  {
    AnalysesContribute(sv, token, previous, next);
  }


  /** The random-walk table's values come first: no candidate from another
      source precedes one of them. */
  lemma RandomWalkFirst<A>(sv: Services<A>, token: Token, previous: Option<string>, next: Option<string>)
    ensures ElementsOfFirst(FuseCandidates(sv, token, previous, next), Get(sv.randomWalk, token.text))
  {
    FusedCandidates(sv, token, previous, next);
    if Proposals(sv, token, previous, next) != [] {
      PrefixComesFirst(FuseCandidates(sv, token, previous, next), Get(sv.randomWalk, token.text),
                       LaterProposals(sv, token, previous, next));
    }
  }

  /** When the sources propose one word only (perhaps several times), it is
      the only candidate. */
  lemma OnlyProposal<A>(sv: Services<A>, token: Token, previous: Option<string>, next: Option<string>, w: string)
    requires Proposals(sv, token, previous, next) != []
    requires forall i :: 0 <= i < |Proposals(sv, token, previous, next)| ==> Proposals(sv, token, previous, next)[i] == w
    ensures FuseCandidates(sv, token, previous, next) == [w]
  {
    FusedCandidates(sv, token, previous, next);
    AddAllSame(Proposals(sv, token, previous, next), w);
  }
}
