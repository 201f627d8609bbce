/** `computeJmdictTagMeta`: display metadata for every tag code. */
module JmdictTagMeta {
  import opened DbTerm

  /** `dbTagMeta`: a description, a category (possibly empty) and a sort rank. */
  datatype TagMeta = TagMeta(notes: string, category: string, order: int)

  /** The built-in table of the eight frequency codes. */
  const Baseline: map<string, TagMeta> := map[
    "news1" := TagMeta("appears frequently in Mainichi Shimbun (top listing)", "frequent", 3),
    "ichi1" := TagMeta("listed as common in Ichimango Goi Bunruishuu (top listing)", "frequent", 3),
    "spec1" := TagMeta("common words not included in frequency lists (top listing)", "frequent", 3),
    "gai1" := TagMeta("common loanword (top listing)", "frequent", 3),
    "news2" := TagMeta("appears frequently in Mainichi Shimbun (bottom listing)", "", 3),
    "ichi2" := TagMeta("listed as common in Ichimango Goi Bunruishuu (bottom listing)", "", 3),
    "spec2" := TagMeta("common words not included in frequency lists (bottom listing)", "", 3),
    "gai2" := TagMeta("common loanword (bottom listing)", "", 3)]

  /** The bottom-listing frequency codes. */
  const BottomFrequencyCodes: set<string> := {"gai2", "ichi2", "news2", "spec2"}

  /** The record built for an entity `name` defined as `value`. */
  function Classify(name: string, value: string): TagMeta {
    if name in TopFrequencyCodes then TagMeta(value, "frequent", 1)
    else if name in ExpressionCodes then TagMeta(value, "expression", 2)
    else if name in ArchaismCodes then TagMeta(value, "archaism", 2)
    else TagMeta(value, "", 0)
  }

  /**
   * `tags` is the metadata for `entities`: the baseline codes and the entity
   * codes, each entity classified, each other baseline code as in the table.
   */
  predicate IsTagMeta(entities: map<string, string>, tags: map<string, TagMeta>) {
    && tags.Keys == Baseline.Keys + entities.Keys
    && (forall name :: name in entities ==> tags[name] == Classify(name, entities[name]))
    && (forall name :: name in Baseline && name !in entities ==> tags[name] == Baseline[name])
  }

  /** The switch on an entity code inside the loop. */
  method ClassifyEntity(name: string, value: string) returns (tag: TagMeta)
    ensures tag == Classify(name, value)
  {
    tag := TagMeta(value, "", 0);
    if name in TopFrequencyCodes {
      tag := tag.(category := "frequent", order := 1);
    } else if name in ExpressionCodes {
      tag := tag.(category := "expression", order := 2);
    } else if name in ArchaismCodes {
      tag := tag.(category := "archaism", order := 2);
    }
  }

  /**
   * The loop's progress: the entity codes outside `remaining` have been
   * classified into `tags`, the other codes keep their baseline record.
   */
  predicate Visited(entities: map<string, string>, tags: map<string, TagMeta>, remaining: set<string>) {
    && remaining <= entities.Keys
    && tags.Keys == Baseline.Keys + (entities.Keys - remaining)
    && (forall name :: name in entities && name !in remaining ==> tags[name] == Classify(name, entities[name]))
    && (forall name :: name in Baseline && (name !in entities || name in remaining) ==> tags[name] == Baseline[name])
  }

  /** Classifying one more entity code keeps the loop's progress. */
  lemma VisitOne(entities: map<string, string>, tags: map<string, TagMeta>, remaining: set<string>, name: string)
    requires Visited(entities, tags, remaining) && name in remaining
    ensures Visited(entities, tags[name := Classify(name, entities[name])], remaining - {name})
  {
  }

  /**
   * The loop of edict.go.  Go visits the entities in an unspecified order;
   * here each step picks any code not yet visited.
   */
  method ComputeJmdictTagMeta(entities: map<string, string>) returns (tags: map<string, TagMeta>)
    ensures IsTagMeta(entities, tags)
  {
    tags := Baseline;
    var remaining := entities.Keys;
    while remaining != {}
      invariant Visited(entities, tags, remaining)
      decreases remaining
    {
      var name :| name in remaining;
      var tag := ClassifyEntity(name, entities[name]);
      VisitOne(entities, tags, remaining, name);
      tags := tags[name := tag];
      remaining := remaining - {name};
    }
  }

  /**
   * At most one map satisfies `IsTagMeta`, so the result does not depend on
   * the order in which the entities are visited.
   */
  lemma TagMetaUnique(entities: map<string, string>, a: map<string, TagMeta>, b: map<string, TagMeta>)
    requires IsTagMeta(entities, a) && IsTagMeta(entities, b)
    ensures a == b
  {
  }

  /** Without entities the result is the baseline: eight codes, each of Order 3. */
  lemma NoEntitiesGiveBaseline(tags: map<string, TagMeta>)
    requires IsTagMeta(map[], tags)
    ensures tags == Baseline
    ensures tags.Keys == TopFrequencyCodes + BottomFrequencyCodes
    ensures forall name :: name in tags ==> tags[name].order == 3
  {
    assert Baseline.Keys == TopFrequencyCodes + BottomFrequencyCodes;
  }

  /**
   * A baseline code no entity redefines keeps Order 3, with Category
   * "frequent" for the top listings and no Category for the bottom ones.
   */
  lemma BaselineCodes(entities: map<string, string>, tags: map<string, TagMeta>, name: string)
    requires IsTagMeta(entities, tags)
    requires name in TopFrequencyCodes + BottomFrequencyCodes && name !in entities
    ensures name in tags && tags[name].order == 3
    ensures name in TopFrequencyCodes ==> tags[name].category == "frequent"
    ensures name in BottomFrequencyCodes ==> tags[name].category == ""
  {
  }

  /**
   * The codes are those of the baseline and of the entities, and an entity's
   * definition is the Notes of its code.
   */
  lemma EntityNotes(entities: map<string, string>, tags: map<string, TagMeta>)
    requires IsTagMeta(entities, tags)
    ensures forall name :: name in tags <==> name in Baseline || name in entities
    ensures forall name :: name in entities ==> tags[name].notes == entities[name]
  {
  }

  /**
   * How an entity code is classified: top frequency codes get ("frequent", 1)
   * over the baseline's Order 3, `exp`/`id` get ("expression", 2),
   * `arch`/`iK` get ("archaism", 2), every other code ("", 0).
   */
  lemma EntityClassification(entities: map<string, string>, tags: map<string, TagMeta>, name: string)
    requires IsTagMeta(entities, tags) && name in entities
    ensures name in TopFrequencyCodes ==> tags[name].category == "frequent" && tags[name].order == 1
    ensures name in ExpressionCodes ==> tags[name].category == "expression" && tags[name].order == 2
    ensures name in ArchaismCodes ==> tags[name].category == "archaism" && tags[name].order == 2
    ensures name !in TopFrequencyCodes + ExpressionCodes + ArchaismCodes ==>
      tags[name].category == "" && tags[name].order == 0
  {
  }
}
