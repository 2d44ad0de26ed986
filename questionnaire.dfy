/**
 * The profile questionnaire (questions.json): sections, each with a title and
 * a list of fields, as both PersonalInfoForm and the report page read it.
 */
module Questionnaire {
  /** A question: its form name, its caption (label), its input type ("text", "number", "select", …) and whether it is required. */
  datatype Field = Field(name: string, caption: string, kind: string, required: bool)

  /** A titled group of questions. */
  datatype Section = Section(title: string, fields: seq<Field>)

  /** The `{ label, name }` pair the report lists for a question. */
  datatype FieldRef = FieldRef(caption: string, name: string)

  /** A section as the report lists it: its title and its questions' captions and names. */
  datatype SectionView = SectionView(title: string, fields: seq<FieldRef>)

  /** The title of the section the report shows separately. */
  const GeneralSection: string := "一般資訊"

  function RefOf(f: Field): FieldRef {
    FieldRef(f.caption, f.name)
  }

  function ViewOf(s: Section): (v: SectionView)
    ensures v.title == s.title && |v.fields| == |s.fields|
    ensures forall k :: 0 <= k < |s.fields| ==> v.fields[k] == RefOf(s.fields[k])
  {
    SectionView(s.title, seq(|s.fields|, k requires 0 <= k < |s.fields| => RefOf(s.fields[k])))
  }
}
