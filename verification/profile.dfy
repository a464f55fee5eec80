/** The profile screen's choice of display name and avatar from the two stored profile
    records: the saved one written when onboarding finishes, and the temporary one written
    while it is in progress.

    Storage and JSON parsing are not modelled: each record is a parameter, either unreadable
    (parsing throws) or the two properties the screen reads. */
module ProfileView {
  import opened Wrappers
  import opened Text

  /** The `userGender` property: absent, a string, or some other JSON value. */
  datatype Value = Absent | Str(s: string) | NonString

  /** The properties read from a stored record; `name` is None when absent. A missing
      storage key reads as `{}`, that is `Fields(None, Absent)`. */
  datatype Fields = Fields(name: Option<string>, userGender: Value)

  datatype Stored = Unreadable | Record(fields: Fields)

  datatype View = View(name: string, avatar: string)

  const DefaultAvatar: string := "/pepe.svg"
  const FemaleAvatar: string := "https://i.pinimg.com/736x/86/7b/2d/867b2d486fe4dd120adfb3f576b9b17f.jpg"
  const MaleAvatar: string := "https://i.pinimg.com/1200x/0a/ae/7c/0aae7c7ef29a21e83e464efd5370c36a.jpg"

  const Initial: View := View("", DefaultAvatar)

  datatype GenderClass = Female | Male | Other

  const FemaleWords: set<string> := {"female", "woman", "girl"}
  const MaleWords: set<string> := {"male", "man", "boy"}

  /** The gender a string names, compared lower-cased against the six known words. */
  function Classify(g: string): (c: GenderClass)
    ensures c == Female <==> Lower(g) in FemaleWords
    ensures c == Male <==> Lower(g) in MaleWords
  {
    var l := Lower(g);
    if l in FemaleWords then Female else if l in MaleWords then Male else Other
  }

  /** Letter case does not matter to the classification. */
  lemma ClassifyIgnoresCase(a: string, b: string)
    requires |a| == |b| && forall i :: 0 <= i < |a| ==> SameIgnoringCase(a[i], b[i])
    ensures Classify(a) == Classify(b)
  {
    assert Lower(a) == Lower(b);
  }

  /** A non-empty string name. */
  predicate HasName(f: Fields) {
    f.name.Some? && f.name.value != []
  }

  /** A gender the screen acts on: a non-empty string. */
  predicate HasGender(f: Fields) {
    f.userGender.Str? && f.userGender.s != []
  }

  /** The avatar chosen from the saved record: by gender, the default for an unknown word. */
  function SavedAvatar(f: Fields, current: string): (a: string)
    ensures !HasGender(f) ==> a == current
    ensures HasGender(f) ==> a in {FemaleAvatar, MaleAvatar, DefaultAvatar}
  {
    if HasGender(f) then
      match Classify(f.userGender.s)
      case Female => FemaleAvatar
      case Male => MaleAvatar
      case Other => DefaultAvatar
    else current
  }

  /** The avatar chosen from the temporary record: by gender, left as it was for an unknown
      word. */
  function TempAvatar(f: Fields, current: string): (a: string)
    ensures !HasGender(f) || Classify(f.userGender.s) == Other ==> a == current
  {
    if HasGender(f) then
      match Classify(f.userGender.s)
      case Female => FemaleAvatar
      case Male => MaleAvatar
      case Other => current
    else current
  }

  /** The effect run once when the screen mounts. A saved record with a name decides both
      name and avatar; otherwise the temporary record's name and gender are applied, each
      on its own. An unreadable record stops the effect where it is. */
  function Load(saved: Stored, temp: Stored): (v: View)
    ensures saved.Record? && HasName(saved.fields) ==>
              v == View(saved.fields.name.value, SavedAvatar(saved.fields, DefaultAvatar))
    ensures saved.Unreadable? || (saved.Record? && !HasName(saved.fields) && temp.Unreadable?) ==>
              v == Initial
    ensures saved.Record? && !HasName(saved.fields) && temp.Record? ==>
              v == View(if HasName(temp.fields) then temp.fields.name.value else "",
                        TempAvatar(temp.fields, DefaultAvatar))
  {
    match saved
    case Unreadable => Initial
    case Record(f) =>
      if HasName(f) then View(f.name.value, SavedAvatar(f, Initial.avatar))
      else
        match temp
        case Unreadable => Initial
        case Record(t) =>
          View(if HasName(t) then t.name.value else Initial.name, TempAvatar(t, Initial.avatar))
  }

  /* ---------------------------------------------------------------------------------
     Properties
     --------------------------------------------------------------------------------- */

  /** Once the saved record has a name, the temporary record makes no difference. */
  lemma SavedNameIgnoresTemp(saved: Fields, t1: Stored, t2: Stored)
    requires HasName(saved)
    ensures Load(Record(saved), t1) == Load(Record(saved), t2)
    ensures Load(Record(saved), t1).name == saved.name.value
  {
  }

  /** A female word gives the female picture and a male word the male picture, from either
      record, whatever the letter case. */
  lemma KnownGenderPicksAvatar(saved: Stored, temp: Stored)
    requires saved.Record?
    ensures var f := if HasName(saved.fields) then saved.fields
                     else if temp.Record? then temp.fields else Fields(None, Absent);
            HasGender(f) ==>
              && (Classify(f.userGender.s) == Female ==> Load(saved, temp).avatar == FemaleAvatar)
              && (Classify(f.userGender.s) == Male ==> Load(saved, temp).avatar == MaleAvatar)
              && (Classify(f.userGender.s) == Other ==> Load(saved, temp).avatar == DefaultAvatar)
  {
  }

  /** Any other string leaves the default picture, from either record. */
  lemma UnknownGenderKeepsDefault(g: string, name: Option<string>, temp: Stored)
    requires g != [] && Classify(g) == Other
    ensures HasName(Fields(name, Str(g))) ==> Load(Record(Fields(name, Str(g))), temp).avatar == DefaultAvatar
    ensures Load(Record(Fields(None, Absent)), Record(Fields(name, Str(g)))).avatar == DefaultAvatar
  {
  }

  /** A gender that is not a string never changes the picture. */
  lemma NonStringGenderKeepsDefault(saved: Stored, temp: Stored)
    requires saved.Record? && !saved.fields.userGender.Str?
    requires temp.Record? ==> !temp.fields.userGender.Str?
    ensures Load(saved, temp).avatar == DefaultAvatar
  {
  }

  /** The temporary record's gender applies even without a name, and its name even without
      a gender. */
  lemma TempFieldsIndependent(saved: Fields, name: Option<string>, gender: Value)
    requires !HasName(saved)
    ensures Load(Record(saved), Record(Fields(name, gender))).avatar
            == Load(Record(saved), Record(Fields(None, gender))).avatar
    ensures Load(Record(saved), Record(Fields(name, gender))).name
            == Load(Record(saved), Record(Fields(name, Absent))).name
  {
  }

  /** The six known words, in any case, map as follows. */
  lemma KnownWords()
    ensures Classify("Female") == Female && Classify("WOMAN") == Female && Classify("girl") == Female
    ensures Classify("Male") == Male && Classify("MAN") == Male && Classify("boy") == Male
  {
    assert Lower("Female") == "female";
    assert Lower("WOMAN") == "woman";
    assert Lower("girl") == "girl";
    assert Lower("Male") == "male";
    assert Lower("MAN") == "man";
    assert Lower("boy") == "boy";
  }
}
