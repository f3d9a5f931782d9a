/**
 * The single, process-wide practice session of the web application and the
 * state update one request to "/" applies to it (main.py, lines 67-70 and
 * 87-118).
 *
 * A POST is specified first on values: `Step` applies the form's actions in
 * the order the handler does (language, level, next, repeat) and then looks
 * the current sentence up again. `Step` is stated for any nested dictionary,
 * with Python's exceptions for a missing key, an empty list and an index past
 * the end; on a well-formed catalog, such as the shipped one, only the
 * KeyError of an unknown code remains. The class `Session` holds the four
 * globals as fields, and its methods are proved to update them as `Step` says.
 */
module Repeater {

  import opened Wrappers
  import opened Catalog

  /** The submitted form fields; only the presence of a key matters for
      "next" and "repeat". */
  type Form = map<string, string>

  /** The four session globals, as a value. */
  datatype State = State(language: string, level: string, index: nat, sentence: string)

  /** What a POST ended in: the sentence was looked up, or a lookup raised. */
  datatype Outcome = Resolved | Raised(error: Error)

  datatype Response = Response(state: State, outcome: Outcome)

  /** What the page shows (the cache-busting timestamp is not modelled). */
  datatype Page = Page(sentence: string, language: string, level: string)

  datatype Request = GetRequest | PostRequest(form: Form)

  /** The globals at process start: German, easy, the first sentence. */
  function Initial(): (s: State)
    ensures s.language == "de" && s.level == "leicht" && s.index == 0
    ensures s.sentence == "Hallo, wie geht es dir?"
  {
    State("de", "leicht", 0, Sentences["de"]["leicht"][0])
  }

  /** The shown sentence is the catalog's sentence at the cursor. */
  ghost predicate Coherent(catalog: Table, s: State) {
    var entry := Entry(catalog, s.language, s.level);
    && entry.Success?
    && s.index < |entry.value|
    && s.sentence == entry.value[s.index]
  }

  /**
   * Every state the session can reach over a catalog of full entries: the
   * index is within an entry, the shown sentence comes from the catalog, and
   * whenever the language and level are both keys of the catalog the
   * sentence is the one at the cursor. (A POST that raises always leaves an
   * unknown code behind.)
   */
  ghost predicate ValidState(catalog: Table, s: State) {
    && s.index < EntrySize
    && InCatalog(catalog, s.sentence)
    && (Entry(catalog, s.language, s.level).Success? ==> Coherent(catalog, s))
  }

  // The individual actions of a POST.

  /** A "language" field: switch language and restart the list. */
  function SetLanguage(s: State, language: string): (r: State)
    ensures r.language == language && r.index == 0
    ensures r.level == s.level && r.sentence == s.sentence
  {
    s.(language := language, index := 0)
  }

  /** A "level" field: switch level and restart the list. */
  function SetLevel(s: State, level: string): (r: State)
    ensures r.level == level && r.index == 0
    ensures r.language == s.language && r.sentence == s.sentence
  {
    s.(level := level, index := 0)
  }

  /** A "next" field: step to the following sentence, wrapping around. The
      length of the list divides, so an empty list raises. */
  function Next(catalog: Table, s: State): (r: Result<State, Error>)
    ensures var entry := Entry(catalog, s.language, s.level);
      r.Success? <==> entry.Success? && |entry.value| > 0
    ensures var entry := Entry(catalog, s.language, s.level);
      r.Success? ==>
        && r.value.index < |entry.value|
        && (s.index + 1 < |entry.value| ==> r.value.index == s.index + 1)
        && (s.index + 1 == |entry.value| ==> r.value.index == 0)
        && r.value.(index := s.index) == s
    ensures var entry := Entry(catalog, s.language, s.level);
      r.Failure? ==> r.error == (if entry.Failure? then entry.error else ZeroDivisionError)
  {
    match Entry(catalog, s.language, s.level)
    case Failure(e) => Failure(e)
    case Success(list) =>
      if |list| == 0 then Failure(ZeroDivisionError)
      else Success(s.(index := (s.index + 1) % |list|))
  }

  /** Look the sentence at the cursor up again. */
  function Resolve(catalog: Table, s: State): (r: Result<State, Error>)
    ensures var entry := Entry(catalog, s.language, s.level);
      r.Success? <==> entry.Success? && s.index < |entry.value|
    ensures r.Success? ==> Coherent(catalog, r.value) && r.value.(sentence := s.sentence) == s
    ensures var entry := Entry(catalog, s.language, s.level);
      r.Failure? ==> r.error == (if entry.Failure? then entry.error else IndexError(s.index))
  {
    match Entry(catalog, s.language, s.level)
    case Failure(e) => Failure(e)
    case Success(list) =>
      if s.index < |list| then Success(s.(sentence := list[s.index]))
      else Failure(IndexError(s.index))
  }

  /** The index a POST starts its "next" from: 0 once a code was submitted. */
  function BaseIndex(s: State, form: Form): nat {
    if "language" in form || "level" in form then 0 else s.index
  }

  /**
   * One POST to "/". Each action writes the globals before the next one runs,
   * so a lookup that raises leaves the earlier writes in place and keeps the
   * old sentence. A "repeat" field changes nothing.
   */
  function Step(catalog: Table, s: State, form: Form): (r: Response)
    ensures r.state.language == (if "language" in form then form["language"] else s.language)
    ensures r.state.level == (if "level" in form then form["level"] else s.level)
    ensures r.outcome.Resolved? ==> Coherent(catalog, r.state)
    ensures r.outcome.Raised? ==> r.state.sentence == s.sentence
    ensures r.outcome.Raised? && r.outcome.error.KeyError? ==>
      && r.state.index == BaseIndex(s, form)
      && Entry(catalog, r.state.language, r.state.level) == Failure(r.outcome.error)
  {
    match Advanced(catalog, s, form)
    case Failure(e) => Response(Submitted(s, form), Raised(e))
    case Success(t) =>
      match Resolve(catalog, t)
      case Failure(e) => Response(t, Raised(e))
      case Success(u) => Response(u, Resolved)
  }

  /** The state once the submitted language and level are written. */
  function Submitted(s: State, form: Form): State {
    var withLanguage := if "language" in form then SetLanguage(s, form["language"]) else s;
    if "level" in form then SetLevel(withLanguage, form["level"]) else withLanguage
  }

  /** The state once "next", if pressed, has moved the cursor. */
  function Advanced(catalog: Table, s: State, form: Form): Result<State, Error> {
    var t := Submitted(s, form);
    if "next" in form then Next(catalog, t) else Success(t)
  }

  /** The form of a POST that only presses "next". */
  const NextForm: Form := map["next" := ""]

  /** The state after one POST that only presses "next". */
  function Pressed(catalog: Table, s: State): State {
    Step(catalog, s, NextForm).state
  }

  /** The state after `k` POSTs that each press only "next". */
  function NextTimes(catalog: Table, s: State, k: nat): (r: State)
    ensures r.language == s.language && r.level == s.level
    decreases k
  {
    if k == 0 then s else NextTimes(catalog, Pressed(catalog, s), k - 1)
  }

  /** The session the application holds, one for all clients. */
  class Session {
    /** The catalog the handler reads, fixed at start. */
    const sentences: Table
    var language: string
    var level: string
    var index: nat
    var sentence: string

    function Snapshot(): State
      reads this
    {
      State(language, level, index, sentence)
    }

    ghost predicate Valid()
      reads this
    {
      FullEntries(sentences) && ValidState(sentences, Snapshot())
    }

    constructor ()
      ensures Valid() && sentences == Sentences && Snapshot() == Initial()
      ensures language == "de" && level == "leicht" && index == 0
      ensures sentence == "Hallo, wie geht es dir?"
    {
      var start := Initial();
      sentences := Sentences;
      language := start.language;
      level := start.level;
      index := start.index;
      sentence := start.sentence;
      new;
      InitialValid();
    }

    /**
     * The state update of a POST, field by field in the handler's order. A
     * lookup that raises ends the update on the spot, with the fields written
     * so far left as they are. It behaves as `Step` says whatever the state
     * and catalog; `Index` adds that reachable states stay reachable.
     */
    method Post(form: Form) returns (outcome: Outcome)
      modifies this
      ensures Response(Snapshot(), outcome) == Step(sentences, old(Snapshot()), form)
    {
      ghost var before := Snapshot();
      if "language" in form {
        language := form["language"];
        index := 0;
      }
      if "level" in form {
        level := form["level"];
        index := 0;
      }
      assert Snapshot() == Submitted(before, form);
      if "next" in form {
        var entry := Entry(sentences, language, level);
        if entry.Failure? {
          assert Advanced(sentences, before, form) == Failure(entry.error);
          return Raised(entry.error);
        }
        if |entry.value| == 0 {
          assert Advanced(sentences, before, form) == Failure(ZeroDivisionError);
          return Raised(ZeroDivisionError);
        }
        index := (index + 1) % |entry.value|;
      }
      ghost var advanced := Snapshot();
      assert Advanced(sentences, before, form) == Success(advanced);
      // A "repeat" field keeps the sentence as it is.
      var entry := Entry(sentences, language, level);
      if entry.Failure? {
        assert Resolve(sentences, advanced) == Failure(entry.error);
        return Raised(entry.error);
      }
      if index >= |entry.value| {
        assert Resolve(sentences, advanced) == Failure(IndexError(index));
        return Raised(IndexError(index));
      }
      sentence := entry.value[index];
      assert Resolve(sentences, advanced) == Success(Snapshot());
      outcome := Resolved;
    }

    /**
     * The "/" handler: a GET shows the session as it is; a POST updates it
     * first, and a lookup that raises leaves no page to show.
     */
    method Index(request: Request) returns (r: Result<Page, Error>)
      requires Valid()
      modifies this
      ensures Valid()
      ensures request.GetRequest? ==> unchanged(this) && r == Success(Page(sentence, language, level))
      ensures request.PostRequest? ==>
        var expected := Step(sentences, old(Snapshot()), request.form);
        && Snapshot() == expected.state
        && (r.Success? <==> expected.outcome.Resolved?)
        && (r.Success? ==> r.value == Page(sentence, language, level))
        && (r.Failure? ==> Raised(r.error) == expected.outcome)
    {
      if request.PostRequest? {
        StepPreservesValid(sentences, Snapshot(), request.form);
        var outcome := Post(request.form);
        if outcome.Raised? {
          return Failure(outcome.error);
        }
      }
      r := Success(Page(sentence, language, level));
    }
  }

  // Properties of the state machine.

  /** The session starts coherent: it shows the first easy German sentence. */
  lemma InitialValid()
    ensures FullEntries(Sentences)
    ensures ValidState(Sentences, Initial())
    ensures Coherent(Sentences, Initial())
  {
    CatalogWellFormed();
    var s := Initial();
    assert Entry(Sentences, s.language, s.level) == Success(Sentences["de"]["leicht"]);
  }

  /**
   * Over a catalog of full entries a POST from a reachable state keeps the
   * index in range and can only raise a KeyError, exactly when a code is not
   * in the catalog; the index ends at 0 after a submitted code, one further
   * on after "next".
   */
  lemma FullEntriesStep(catalog: Table, s: State, form: Form)
    requires FullEntries(catalog) && s.index < EntrySize
    ensures Step(catalog, s, form).state.index < EntrySize
    ensures var r := Step(catalog, s, form);
      r.outcome.Resolved? <==> Entry(catalog, r.state.language, r.state.level).Success?
    ensures Step(catalog, s, form).outcome.Raised? ==> Step(catalog, s, form).outcome.error.KeyError?
    ensures var r := Step(catalog, s, form);
      r.outcome.Resolved? ==>
        r.state.index == if "next" in form then (BaseIndex(s, form) + 1) % EntrySize else BaseIndex(s, form)
  {
  }

  /** On a well-formed catalog, such as the shipped one, a POST succeeds
      exactly when the language and level it ends with are supported. */
  lemma ResolvesIffSupported(catalog: Table, s: State, form: Form)
    requires WellFormed(catalog) && s.index < EntrySize
    ensures var r := Step(catalog, s, form);
      r.outcome.Resolved? <==> Supported(r.state.language, r.state.level)
  {
    var r := Step(catalog, s, form);
    FullEntriesStep(catalog, s, form);
    WellFormedEntry(catalog, r.state.language, r.state.level);
  }

  /** Every POST keeps the session in a reachable state. */
  lemma StepPreservesValid(catalog: Table, s: State, form: Form)
    requires FullEntries(catalog) && ValidState(catalog, s)
    ensures ValidState(catalog, Step(catalog, s, form).state)
  {
    var r := Step(catalog, s, form);
    FullEntriesStep(catalog, s, form);
    if r.outcome.Resolved? {
      var t := r.state;
      assert Entry(catalog, t.language, t.level).Success?;
    }
  }

  /** Submitting a language (without "next") restarts the list whatever the
      index was, and so does submitting a level. */
  lemma CodeChangeResetsIndex(catalog: Table, s: State, form: Form)
    requires "language" in form || "level" in form
    requires "next" !in form
    ensures Step(catalog, s, form).state.index == 0
  {
  }

  /** Actions run in order: a new language first resets the index, and "next"
      in the same POST then advances it to 1. */
  lemma LanguageThenNext(catalog: Table, s: State, language: string)
    requires FullEntries(catalog) && s.index < EntrySize
    requires language in catalog && s.level in catalog[language]
    ensures Step(catalog, s, map["language" := language, "next" := ""]) ==
      Response(State(language, s.level, 1, catalog[language][s.level][1]), Resolved)
  {
  }

  /** A POST whose only action is "repeat" (or that carries no action) changes
      no state; it succeeds exactly when the codes are known. */
  lemma RepeatChangesNothing(catalog: Table, s: State, form: Form)
    requires FullEntries(catalog) && ValidState(catalog, s)
    requires "language" !in form && "level" !in form && "next" !in form
    ensures Step(catalog, s, form).state == s
    ensures Step(catalog, s, form).outcome.Resolved? <==> Entry(catalog, s.language, s.level).Success?
  {
  }

  /**
   * An unknown language raises the KeyError at the lookup, after the language
   * and the index were already overwritten; the shown sentence stays the old one.
   */
  lemma UnknownLanguageRaises(catalog: Table, s: State, form: Form)
    requires "language" in form && form["language"] !in catalog
    ensures Step(catalog, s, form).outcome == Raised(KeyError(form["language"]))
    ensures Step(catalog, s, form).state.language == form["language"]
    ensures Step(catalog, s, form).state.index == 0
    ensures Step(catalog, s, form).state.sentence == s.sentence
  {
  }

  /** Once an unknown language is set, every POST that does not submit a new
      language raises the same KeyError and keeps the shown sentence. */
  lemma UnknownLanguageSticks(catalog: Table, s: State, form: Form)
    requires s.language !in catalog && "language" !in form
    ensures Step(catalog, s, form).outcome == Raised(KeyError(s.language))
    ensures Step(catalog, s, form).state.sentence == s.sentence
  {
  }

  /** With known languages, an unknown level raises its KeyError the same way. */
  lemma UnknownLevelRaises(catalog: Table, s: State, form: Form)
    requires WellFormed(catalog)
    requires "language" !in form ==> s.language in Languages
    requires "language" in form ==> form["language"] in Languages
    requires "level" in form && form["level"] !in Levels
    ensures Step(catalog, s, form).outcome == Raised(KeyError(form["level"]))
    ensures Step(catalog, s, form).state.level == form["level"]
    ensures Step(catalog, s, form).state.index == 0
    ensures Step(catalog, s, form).state.sentence == s.sentence
  {
  }

  /** One press of "next" from a coherent state moves the cursor one place,
      wrapping around, and shows the sentence there. */
  lemma NextOnce(catalog: Table, s: State)
    requires FullEntries(catalog) && Coherent(catalog, s)
    ensures Pressed(catalog, s).index == (s.index + 1) % EntrySize
    ensures Coherent(catalog, Pressed(catalog, s))
  {
    assert "language" !in NextForm && "level" !in NextForm && "next" in NextForm;
  }

  /** A coherent state is determined by its cursor. */
  lemma SameCursorSameState(catalog: Table, a: State, b: State)
    requires Coherent(catalog, a) && Coherent(catalog, b)
    requires a.language == b.language && a.level == b.level && a.index == b.index
    ensures a == b
  {
  }

  lemma WrapAround(i: nat, j: nat, k: nat)
    requires i < EntrySize && j == (i + 1) % EntrySize && k > 0
    ensures (j + (k - 1)) % EntrySize == (i + k) % EntrySize
  {
    if i + 1 == EntrySize {
      assert (i + k) % EntrySize == (k - 1) % EntrySize;
    }
  }

  lemma FullTurn(i: nat)
    requires i < EntrySize
    ensures i % EntrySize == i
    ensures (i + EntrySize) % EntrySize == i
  {
  }

  /** `k` presses of "next" from a coherent state land on a coherent state. */
  lemma {:induction false} NextTimesCoherent(catalog: Table, s: State, k: nat)
    requires FullEntries(catalog) && Coherent(catalog, s)
    ensures Coherent(catalog, NextTimes(catalog, s, k))
    decreases k
  {
    if k > 0 {
      NextOnce(catalog, s);
      NextTimesCoherent(catalog, Pressed(catalog, s), k - 1);
    }
  }

  /** `k` presses of "next" from a coherent state move the cursor `k` places
      along the list, wrapping around. */
  lemma {:induction false} NextTimesAdvances(catalog: Table, s: State, k: nat)
    requires FullEntries(catalog) && Coherent(catalog, s)
    ensures NextTimes(catalog, s, k).index == (s.index + k) % EntrySize
    decreases k
  {
    NextTimesCoherent(catalog, s, k);
    if k > 0 {
      var t := Pressed(catalog, s);
      NextOnce(catalog, s);
      NextTimesAdvances(catalog, t, k - 1);
      WrapAround(s.index, t.index, k);
    } else {
      FullTurn(s.index);
    }
  }

  /** Pressing "next" as many times as the list is long comes back to the
      starting sentence. */
  lemma NextCyclesBack(catalog: Table, s: State)
    requires FullEntries(catalog) && Coherent(catalog, s)
    ensures NextTimes(catalog, s, EntrySize) == s
  {
    NextTimesAdvances(catalog, s, EntrySize);
    NextTimesCoherent(catalog, s, EntrySize);
    FullTurn(s.index);
    SameCursorSameState(catalog, NextTimes(catalog, s, EntrySize), s);
  }

  // Two runs of the shipped application from its start state.

  /** Choosing English and pressing "next" in one POST shows the second easy
      English sentence. */
  lemma EnglishThenNextScenario()
    ensures Step(Sentences, Initial(), map["language" := "en", "next" := ""]) ==
      Response(State("en", "leicht", 1, "I love programming with Python."), Resolved)
  {
    CatalogWellFormed();
    LanguageThenNext(Sentences, Initial(), "en");
    assert Sentences["en"]["leicht"][1] == "I love programming with Python.";
  }

  /** An unknown language code raises; the page keeps the greeting. */
  lemma UnknownLanguageScenario()
    ensures Step(Sentences, Initial(), map["language" := "it"]) ==
      Response(State("it", "leicht", 0, "Hallo, wie geht es dir?"), Raised(KeyError("it")))
  {
    assert "it" !in Sentences;
    UnknownLanguageRaises(Sentences, Initial(), map["language" := "it"]);
  }
}
