/** The selection logic of App.tsx: the sub-topic a category starts with,
    and the labels the reflection request is made from. The catalog itself
    (constants.tsx) is a parameter. */
module Selection {

  import opened Outcomes
  import opened JsSemantics

  /** A sub-topic; `caption` is the source's `label` field (a reserved word here). */
  datatype SubTopic = SubTopic(caption: string, icon: string)

  /** A category; `caption` is the source's `label` field. */
  datatype Situation = Situation(id: string, caption: string, subTopics: Option<seq<SubTopic>>)

  datatype Language = Language(code: string, name: string)

  /** `Array.prototype.find`: the first element satisfying `p`, if any. */
  function FindFirst<T>(s: seq<T>, p: T -> bool): (r: Option<T>)
    ensures r.None? <==> forall i :: 0 <= i < |s| ==> !p(s[i])
    ensures r.Some? ==> exists k :: && 0 <= k < |s| && s[k] == r.value && p(s[k])
                                    && forall j :: 0 <= j < k ==> !p(s[j])
  {
    if |s| == 0 then None
    else if p(s[0]) then Some(s[0])
    else
      var r := FindFirst(s[1..], p);
      assert forall i :: 1 <= i < |s| ==> s[i] == s[1..][i - 1];
      r
  }

  /** The situation the category id selects. */
  function FindSituation(catalog: seq<Situation>, id: string): Option<Situation> {
    FindFirst(catalog, (s: Situation) => s.id == id)
  }

  /** The effect run when the category changes: its first sub-topic, or none
      when the category is unknown or has no sub-topics. */
  function DefaultSubTopic(catalog: seq<Situation>, id: string): (r: Option<SubTopic>)
    ensures r.Some? <==>
      exists k :: && 0 <= k < |catalog| && catalog[k].id == id
                  && (forall j :: 0 <= j < k ==> catalog[j].id != id)
                  && catalog[k].subTopics.Some? && |catalog[k].subTopics.value| > 0
    ensures r.Some? ==>
      exists k :: && 0 <= k < |catalog| && catalog[k].id == id
                  && (forall j :: 0 <= j < k ==> catalog[j].id != id)
                  && catalog[k].subTopics.Some? && |catalog[k].subTopics.value| > 0
                  && r.value == catalog[k].subTopics.value[0]
  {
    var found := FindSituation(catalog, id);
    FirstIsUnique(catalog, id);
    if found.Some? && found.value.subTopics.Some? && |found.value.subTopics.value| > 0 then
      Some(found.value.subTopics.value[0])
    else None
  }

  /** Two indices that are both the first with a given id coincide. */
  lemma FirstIsUnique(catalog: seq<Situation>, id: string)
    ensures forall k, k' ::
      && 0 <= k < |catalog| && catalog[k].id == id && (forall j :: 0 <= j < k ==> catalog[j].id != id)
      && 0 <= k' < |catalog| && catalog[k'].id == id && (forall j :: 0 <= j < k' ==> catalog[j].id != id)
      ==> k == k'
  {
  }

  /** `situationObj?.caption || selectedSituation`. */
  function SituationLabel(catalog: seq<Situation>, id: string): (r: string)
    ensures var found := FindSituation(catalog, id);
            && (found.Some? && found.value.caption != "" ==> r == found.value.caption)
            && (found.None? || found.value.caption == "" ==> r == id)
  {
    var found := FindSituation(catalog, id);
    OrElse(if found.Some? then Some(found.value.caption) else None, id)
  }

  /** `overrideTopic || selectedSubTopic?.caption || situationLabel`: the first
      non-empty of the three, falling back to the situation label. */
  function SubTopicLabel(overrideTopic: Option<string>, selected: Option<SubTopic>, situationLabel: string): (r: string)
    ensures Truthy(overrideTopic) ==> r == overrideTopic.value
    ensures !Truthy(overrideTopic) && selected.Some? && selected.value.caption != "" ==> r == selected.value.caption
    ensures !Truthy(overrideTopic) && (selected.None? || selected.value.caption == "") ==> r == situationLabel
    ensures situationLabel != "" ==> r != ""
  {
    var selectedLabel := if selected.Some? then Some(selected.value.caption) else None;
    OrElse(overrideTopic, OrElse(selectedLabel, situationLabel))
  }

  /** `LANGUAGES.find(l => l.code === code)?.name || 'English'`. */
  function LanguageName(languages: seq<Language>, code: string): (r: string)
    ensures r != ""
    ensures (forall i :: 0 <= i < |languages| ==> languages[i].code != code) ==> r == "English"
    ensures var found := FindFirst(languages, (l: Language) => l.code == code);
            && (found.Some? && found.value.name != "" ==> r == found.value.name)
            && (found.Some? && found.value.name == "" ==> r == "English")
  {
    var found := FindFirst(languages, (l: Language) => l.code == code);
    OrElse(if found.Some? then Some(found.value.name) else None, "English")
  }

  /** The three labels `handleGenerate` sends to the text generation. */
  datatype ReflectionQuery = ReflectionQuery(situation: string, subTopic: string, language: string)

  function Query(catalog: seq<Situation>, languages: seq<Language>, situationId: string,
                 selected: Option<SubTopic>, languageCode: string, overrideTopic: Option<string>): (q: ReflectionQuery)
    ensures q.situation == SituationLabel(catalog, situationId)
    ensures q.subTopic == SubTopicLabel(overrideTopic, selected, q.situation)
    ensures q.language == LanguageName(languages, languageCode)
    ensures q.language != ""
    ensures q.situation != "" ==> q.subTopic != ""
  {
    var situation := SituationLabel(catalog, situationId);
    ReflectionQuery(situation, SubTopicLabel(overrideTopic, selected, situation), LanguageName(languages, languageCode))
  }
}
