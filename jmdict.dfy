/**
 * The fields of a decoded JMdict entry that the extraction reads.  A Go nil
 * slice for a restriction list means "no restriction" and is `None`; an empty
 * list that is present restricts to nothing.
 */
module Jmdict {
  import opened Wrappers

  /** A kanji spelling of the headword. */
  datatype Kanji = Kanji(
    expression: string,
    information: seq<string>,
    priorities: seq<string>)

  /** A reading; `restrictions` lists the kanji spellings it applies to. */
  datatype Reading = Reading(
    reading: string,
    information: seq<string>,
    priorities: seq<string>,
    restrictions: Option<seq<string>>)

  /** One gloss of a sense. */
  datatype Glossary = Glossary(content: string)

  /** A sense, optionally restricted to some kanji spellings and readings. */
  datatype Sense = Sense(
    restrictedKanji: Option<seq<string>>,
    restrictedReadings: Option<seq<string>>,
    partsOfSpeech: seq<string>,
    fields: seq<string>,
    misc: seq<string>,
    dialects: seq<string>,
    glossary: seq<Glossary>)

  /** One dictionary entry. */
  datatype Entry = Entry(
    kanji: seq<Kanji>,
    readings: seq<Reading>,
    sense: seq<Sense>)
}
