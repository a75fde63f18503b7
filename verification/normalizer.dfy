/** `normalize`: a sentence is preprocessed and tokenized, every token gets
    its fused candidate list, and the decoder picks one candidate per token
    so that the whole sentence scores best under the language model. */
module Normalizer {
  import opened Wrappers
  import opened Text
  import opened LookupTable
  import opened OrderedSet
  import opened CandidateFusion
  import opened Lattice
  import opened Decoder

  /** Everything one normalizer holds: the candidate sources, the language
      model, the preprocessor and the tokenizer. */
  datatype Normalizer<!A> = Normalizer(
    services: Services<A>,
    lm: LanguageModel,
    preprocess: string -> string,
    tokenize: string -> seq<Token>)

  /** The text of the token before position `i`, absent for the first. */
  function PreviousText(tokens: seq<Token>, i: nat): (r: Option<string>)
    requires i < |tokens|
    ensures r.None? <==> i == 0
    ensures r.Some? ==> r.value == tokens[i - 1].text
  {
    if i == 0 then None else Some(tokens[i - 1].text)
  }

  /** The text of the token after position `i`, absent for the last. */
  function NextText(tokens: seq<Token>, i: nat): (r: Option<string>)
    requires i < |tokens|
    ensures r.None? <==> i == |tokens| - 1
    ensures r.Some? ==> r.value == tokens[i + 1].text
  {
    if i == |tokens| - 1 then None else Some(tokens[i + 1].text)
  }

  /** The fused candidate list of the token at position `i`. */
  function CandidatesAt<A>(sv: Services<A>, tokens: seq<Token>, i: nat): seq<string>
    requires i < |tokens|
  {
    FuseCandidates(sv, tokens[i], PreviousText(tokens, i), NextText(tokens, i))
  }

  /** The candidate sets of the sentence, one per token; none is empty. */
  function CandidateSets<A>(sv: Services<A>, tokens: seq<Token>): (r: seq<seq<Candidate>>)
    ensures |r| == |tokens|
    ensures forall t :: 0 <= t < |r| ==> |r[t]| > 0
  {
    seq(|tokens|, t requires 0 <= t < |tokens| => AsCandidates(CandidatesAt(sv, tokens, t)))
  }

  /** The set of a token holds, once each, exactly the token's fused
      candidates. */
  lemma CandidateSetMembers<A>(sv: Services<A>, tokens: seq<Token>, t: nat, w: string)
    requires t < |tokens|
    ensures Candidate(w) in CandidateSets(sv, tokens)[t] <==> w in CandidatesAt(sv, tokens, t)
    ensures NoDuplicates(CandidateSets(sv, tokens)[t])
  {
    var words := CandidatesAt(sv, tokens, t);
    var cands := CandidateSets(sv, tokens)[t];
    if w in words {
      var i :| 0 <= i < |words| && words[i] == w;
      assert cands[i] == Candidate(w);
    }
  }

  /** The tokens of a sentence after preprocessing. */
  function Tokens<A>(n: Normalizer<A>, sentence: string): seq<Token> {
    n.tokenize(n.preprocess(sentence))
  }

  /** `normalize`: one word per token, each one of that token's fused
      candidates, and no other choice of candidates scores higher as a
      sentence. */
  function Normalize<A>(n: Normalizer<A>, sentence: string): (r: seq<string>)
    requires n.lm.order >= 2
    ensures |r| == |Tokens(n, sentence)|
    ensures forall t :: 0 <= t < |r| ==> r[t] in CandidatesAt(n.services, Tokens(n, sentence), t)
    ensures forall path :: ValidPath(path, CandidateSets(n.services, Tokens(n, sentence))) ==>
      SentenceScore(n.lm, path) <= SentenceScore(n.lm, AsCandidates(r))
  {
    var tokens := Tokens(n, sentence);
    var r := Decode(n.lm, CandidateSets(n.services, tokens));
    forall t | 0 <= t < |r|
      ensures r[t] in CandidatesAt(n.services, tokens, t)
    {
      CandidateSetMembers(n.services, tokens, t, r[t]);
    }
    r
  }

  /** A token nothing proposes a candidate for comes out unchanged. */
  lemma UnknownTokenUnchanged<A>(n: Normalizer<A>, sentence: string, t: nat)
    requires n.lm.order >= 2
    requires var tokens := Tokens(n, sentence);
      t < |tokens| && Proposals(n.services, tokens[t], PreviousText(tokens, t), NextText(tokens, t)) == []
    ensures t < |Normalize(n, sentence)| && Normalize(n, sentence)[t] == Tokens(n, sentence)[t].text
  {
    var tokens := Tokens(n, sentence);
    FusedCandidates(n.services, tokens[t], PreviousText(tokens, t), NextText(tokens, t));
    SingleCandidateChosen(n, sentence, t, tokens[t].text);
  }

  /** A token with a single fused candidate comes out as that candidate,
      whatever the rest of the sentence. */
  lemma SingleCandidateChosen<A>(n: Normalizer<A>, sentence: string, t: nat, w: string)
    requires n.lm.order >= 2
    requires t < |Tokens(n, sentence)| && CandidatesAt(n.services, Tokens(n, sentence), t) == [w]
    ensures t < |Normalize(n, sentence)| && Normalize(n, sentence)[t] == w
  {
    var r := Normalize(n, sentence);
    assert r[t] in CandidatesAt(n.services, Tokens(n, sentence), t);
  }

  /** When every token has a single fused candidate, the sentence comes out
      as exactly those candidates. */
  lemma SingleCandidatesChosen<A>(n: Normalizer<A>, sentence: string, words: seq<string>)
    requires n.lm.order >= 2
    requires |Tokens(n, sentence)| == |words|
    requires forall t :: 0 <= t < |words| ==> CandidatesAt(n.services, Tokens(n, sentence), t) == [words[t]]
    ensures Normalize(n, sentence) == words
  {
    var r := Normalize(n, sentence);
    forall t | 0 <= t < |words|
      ensures r[t] == words[t]
    {
      SingleCandidateChosen(n, sentence, t, words[t]);
    }
  }

  /** A file of the one line `key=value` loads to a table giving `value`
      for `key`. */
  lemma OneLineTable(key: string, value: string)
    requires IsCleanKey(key) && IsCleanValue(value)
    ensures Load([key + "=" + value]).Success?
    ensures Get(Load([key + "=" + value]).value, key) == [value]
  {
    OneLineLoads(key, value);
  }

  /** The one-line file loads to the table of that single entry. */
  lemma OneLineLoads(key: string, value: string)
    requires IsCleanKey(key) && IsCleanValue(value)
    ensures Load([key + "=" + value]) == Success(map[key := [value]])
  {
    var line := key + "=" + value;
    var e := Entry(key, [value]);
    assert FormatLine(e) == line;
    ParseFormatted(e);
    LoadSingle(line);
    PutAllEmpty(key, [value]);
  }

  /** The random-walk table is that of the one clean line `key=value`, and
      no other source proposes anything for `key` as the only token of a
      sentence. */
  ghost predicate OneLineSetting<A>(sv: Services<A>, key: string, value: string) {
    && IsCleanKey(key) && IsCleanValue(value)
    && sv.randomWalk == map[key := [value]]
    && Get(sv.asciiLookup, key) == []
    && sv.informalAnalyses(key) == []
    && sv.suggest(key, None, None) == []
  }

  /** In that setting the sources propose `value` alone. */
  lemma OneLineProposals<A>(sv: Services<A>, token: Token, key: string, value: string)
    requires OneLineSetting(sv, key, value) && token.text == key
    ensures Proposals(sv, token, None, None) == [value]
  {
    assert AnalysisCandidates(sv, key, sv.informalAnalyses(key)) == [];
    assert SpellContribution(sv, token, None, None) == [];
  }

  /** In that setting `value` is the only candidate of `key`. */
  lemma OneLineCandidates<A>(sv: Services<A>, token: Token, key: string, value: string)
    requires OneLineSetting(sv, key, value) && token.text == key
    ensures FuseCandidates(sv, token, None, None) == [value]
  {
    OneLineProposals(sv, token, key, value);
    OnlyProposal(sv, token, None, None, value);
  }

  /** A random-walk table loaded from the single line `key=value`, nothing
      else proposing: the one-word sentence `key` comes out as `value`. */
  lemma OneLineScenario<A>(n: Normalizer<A>, sentence: string, key: string, value: string, tokenType: int)
    requires n.lm.order >= 2
    requires OneLineSetting(n.services, key, value)
    requires Tokens(n, sentence) == [Token(key, tokenType)]
    ensures Normalize(n, sentence) == [value]
  {
    var tokens := Tokens(n, sentence);
    OneLineCandidates(n.services, tokens[0], key, value);
    assert CandidatesAt(n.services, tokens, 0) == [value];
    SingleCandidatesChosen(n, sentence, [value]);
  }

  /** A random-walk table loaded from the one clean line `key=value`,
      nothing else proposing: the one-word sentence `key` comes out as
      `value`. */
  lemma OneLineFileScenario<A>(n: Normalizer<A>, sentence: string, key: string, value: string, tokenType: int)
    requires n.lm.order >= 2
    requires IsCleanKey(key) && IsCleanValue(value)
    requires Load([key + "=" + value]) == Success(n.services.randomWalk)
    requires Get(n.services.asciiLookup, key) == []
    requires n.services.informalAnalyses(key) == []
    requires n.services.suggest(key, None, None) == []
    requires Tokens(n, sentence) == [Token(key, tokenType)]
    ensures Normalize(n, sentence) == [value]
  {
    OneLineLoads(key, value);
    OneLineScenario(n, sentence, key, value, tokenType);
  }

  /** The key and value of the line `teşekkurler=teşekkürler` are clean. */
  lemma ThankYouClean()
    ensures IsCleanKey("teşekkurler") && IsCleanValue("teşekkürler")
  {
  }

  /** A random-walk table loaded from the line `teşekkurler=teşekkürler`,
      nothing else proposing: the one-word sentence `teşekkurler` comes out
      as `teşekkürler`. The two words are parameters pinned by a `requires`
      so that `Load` is never applied to a literal, which it would unfold. */
  lemma ThankYouScenario<A>(n: Normalizer<A>, sentence: string, key: string, value: string, tokenType: int)
    requires n.lm.order >= 2
    requires key == "teşekkurler" && value == "teşekkürler"
    requires Load([key + "=" + value]) == Success(n.services.randomWalk)
    requires Get(n.services.asciiLookup, key) == []
    requires n.services.informalAnalyses(key) == []
    requires n.services.suggest(key, None, None) == []
    requires Tokens(n, sentence) == [Token(key, tokenType)]
    ensures Normalize(n, sentence) == [value]
  {
    ThankYouClean();
    OneLineFileScenario(n, sentence, key, value, tokenType);
  }

  /** A two-token sentence whose tokens each have a single fused candidate
      comes out as those two candidates. */
  lemma TwoCandidatesChosen<A>(n: Normalizer<A>, sentence: string, first: string, second: string)
    requires n.lm.order >= 2
    requires var tokens := Tokens(n, sentence);
      && |tokens| == 2
      && FuseCandidates(n.services, tokens[0], None, Some(tokens[1].text)) == [first]
      && FuseCandidates(n.services, tokens[1], Some(tokens[0].text), None) == [second]
    ensures Normalize(n, sentence) == [first, second]
  {
    var tokens := Tokens(n, sentence);
    assert CandidatesAt(n.services, tokens, 0) == [first];
    assert CandidatesAt(n.services, tokens, 1) == [second];
    SingleCandidatesChosen(n, sentence, [first, second]);
  }

  /** With `ogrenci` mapped to `öğrenci` by the ASCII table and nothing
      else proposing, `öğrenci` is its only candidate. */
  lemma StudentCandidates<A>(sv: Services<A>, token: Token, next: Option<string>)
    requires token.text == "ogrenci"
    requires sv.asciiLookup == map["ogrenci" := ["öğrenci"]]
    requires sv.randomWalk == map[]
    requires sv.informalAnalyses("ogrenci") == []
    requires sv.suggest("ogrenci", None, next) == []
    ensures FuseCandidates(sv, token, None, next) == ["öğrenci"]
  {
    assert AnalysisCandidates(sv, token.text, sv.informalAnalyses(token.text)) == [];
    assert SpellContribution(sv, token, None, next) == [];
    assert Proposals(sv, token, None, next) == ["öğrenci"];
    OnlyProposal(sv, token, None, next, "öğrenci");
  }

  /** A word of five characters with a formal analysis and no table entry
      is its own only candidate. */
  lemma CameCandidates<A>(sv: Services<A>, token: Token, previous: Option<string>, formal: A)
    requires token.text == "geldi"
    requires sv.asciiLookup == map["ogrenci" := ["öğrenci"]]
    requires sv.randomWalk == map[]
    requires sv.informalAnalyses("geldi") == [formal]
    requires !sv.containsInformalMorpheme(formal)
    ensures FuseCandidates(sv, token, previous, None) == ["geldi"]
  {
    assert HasFormalAnalysis(sv, [formal]);
    assert AnalysisCandidates(sv, token.text, [formal]) == ["geldi"];
    assert SpellContribution(sv, token, previous, None) == [];
    assert Proposals(sv, token, previous, None) == ["geldi"];
    OnlyProposal(sv, token, previous, None, "geldi");
  }

  /** An ASCII table mapping `ogrenci` to `öğrenci`, and `geldi` with a
      formal analysis: the two-word sentence comes out as `öğrenci geldi`. */
  lemma StudentScenario<A>(n: Normalizer<A>, sentence: string, t1: int, t2: int, formal: A)
    requires n.lm.order >= 2
    requires Tokens(n, sentence) == [Token("ogrenci", t1), Token("geldi", t2)]
    requires n.services.asciiLookup == map["ogrenci" := ["öğrenci"]]
    requires n.services.randomWalk == map[]
    requires n.services.informalAnalyses("ogrenci") == []
    requires n.services.suggest("ogrenci", None, Some("geldi")) == []
    requires n.services.informalAnalyses("geldi") == [formal]
    requires !n.services.containsInformalMorpheme(formal)
    ensures Normalize(n, sentence) == ["öğrenci", "geldi"]
  {
    var tokens := Tokens(n, sentence);
    StudentCandidates(n.services, tokens[0], Some("geldi"));
    CameCandidates(n.services, tokens[1], Some("ogrenci"), formal);
    TwoCandidatesChosen(n, sentence, "öğrenci", "geldi");
  }
}
