/**
 * The fixed sentence catalog: a nested dictionary from a language code to a
 * difficulty level to the list of practice sentences (main.py, lines 12-64).
 */
module Catalog {

  import opened Wrappers

  /** The exceptions the handler's lookups can raise in Python. */
  datatype Error =
    | KeyError(key: string)       // a dictionary has no such key
    | ZeroDivisionError           // `%` by the length of an empty list
    | IndexError(index: int)      // a list index past the end

  /** Language code to difficulty level to sentences, as the nested dictionary. */
  type Table = map<string, map<string, seq<string>>>

  /** The language codes the catalog knows. */
  const Languages: set<string> := {"de", "fr", "en"}

  /** The difficulty levels every language has. */
  const Levels: set<string> := {"leicht", "mittel", "schwer"}

  /** How many sentences each (language, level) entry holds. */
  const EntrySize: nat := 3

  const Sentences: Table := map[
    "de" := map[
      "leicht" := [
        "Hallo, wie geht es dir?",
        "Ich liebe Programmieren mit Python.",
        "Der Himmel ist heute sehr blau."
      ],
      "mittel" := [
        "Künstliche Intelligenz ist faszinierend.",
        "Ich trinke gerne Kaffee am Morgen.",
        "Die Blumen im Garten blühen prächtig."
      ],
      "schwer" := [
        "Die tiefgreifende Analyse der Daten ist essenziell.",
        "Kollaboratives Arbeiten erfordert Kommunikation und Geduld.",
        "Die Wolken spiegeln sich im ruhigen Wasser des Sees wider."
      ]
    ],
    "fr" := map[
      "leicht" := [
        "Bonjour, comment ça va?",
        "J'adore programmer en Python.",
        "Le ciel est très bleu aujourd'hui."
      ],
      "mittel" := [
        "L'intelligence artificielle est fascinante.",
        "Je bois du café le matin.",
        "Les fleurs dans le jardin sont magnifiques."
      ],
      "schwer" := [
        "L'analyse approfondie des données est essentielle.",
        "La collaboration nécessite communication et patience.",
        "Les nuages se reflètent dans l'eau calme du lac."
      ]
    ],
    "en" := map[
      "leicht" := [
        "Hello, how are you?",
        "I love programming with Python.",
        "The sky is very blue today."
      ],
      "mittel" := [
        "Artificial intelligence is fascinating.",
        "I enjoy drinking coffee in the morning.",
        "The flowers in the garden are blooming beautifully."
      ],
      "schwer" := [
        "In-depth data analysis is essential.",
        "Collaborative work requires communication and patience.",
        "The clouds are reflected in the calm water of the lake."
      ]
    ]
  ]

  /** Both codes are among the supported ones. */
  predicate Supported(language: string, level: string) {
    language in Languages && level in Levels
  }

  /** Every entry holds EntrySize sentences, so none is empty. */
  ghost predicate FullEntries(catalog: Table) {
    forall language, level | language in catalog && level in catalog[language] ::
      |catalog[language][level]| == EntrySize
  }

  /** The catalog's shape: exactly the supported languages, each with exactly
      the supported levels, each holding EntrySize sentences. */
  ghost predicate WellFormed(catalog: Table) {
    && catalog.Keys == Languages
    && (forall language | language in catalog :: catalog[language].Keys == Levels)
    && FullEntries(catalog)
  }

  /** The shipped catalog has that shape, so no entry is empty. */
  lemma CatalogWellFormed()
    ensures WellFormed(Sentences)
  {
    assert Sentences.Keys == Languages;
    forall language | language in Sentences
      ensures Sentences[language].Keys == Levels
    {
      LanguageShape(language);
    }
    forall language, level | language in Sentences && level in Sentences[language]
      ensures |Sentences[language][level]| == EntrySize
    {
      LanguageShape(language);
    }
  }

  lemma LanguageShape(language: string)
    requires language in Languages
    ensures language in Sentences && Sentences[language].Keys == Levels
    ensures forall level | level in Sentences[language] :: |Sentences[language][level]| == EntrySize
  {
  }

  /**
   * `catalog[language][level]`: the outer lookup raises first, so an unknown
   * language is reported even when the level is unknown too.
   */
  function Entry(catalog: Table, language: string, level: string): Result<seq<string>, Error> {
    if language !in catalog then Failure(KeyError(language))
    else if level !in catalog[language] then Failure(KeyError(level))
    else Success(catalog[language][level])
  }

  /** The lookup succeeds exactly when both keys are present and then yields
      the stored list; otherwise the outer key is reported first, so an
      unknown language wins over an unknown level. */
  lemma EntryRaisesOuterFirst(catalog: Table, language: string, level: string)
    ensures Entry(catalog, language, level).Success? <==> language in catalog && level in catalog[language]
    ensures Entry(catalog, language, level).Success? ==> Entry(catalog, language, level).value == catalog[language][level]
    ensures Entry(catalog, language, level).Failure? ==>
      Entry(catalog, language, level).error == KeyError(if language in catalog then level else language)
  {
  }

  /** On a well-formed catalog the lookup succeeds exactly for the supported
      codes and then yields a full entry; otherwise it names the unknown
      language, or else the unknown level. */
  lemma WellFormedEntry(catalog: Table, language: string, level: string)
    requires WellFormed(catalog)
    ensures Entry(catalog, language, level).Success? <==> Supported(language, level)
    ensures Entry(catalog, language, level).Success? ==> |Entry(catalog, language, level).value| == EntrySize
    ensures Entry(catalog, language, level).Failure? ==>
      Entry(catalog, language, level).error == KeyError(if language in Languages then level else language)
  {
  }

  /** The sentence is one the catalog holds, under some language and level. */
  ghost predicate InCatalog(catalog: Table, sentence: string) {
    exists language, level :: Entry(catalog, language, level).Success? && sentence in Entry(catalog, language, level).value
  }
}
