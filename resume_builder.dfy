/** The resume form page: the transformations its handlers apply to the
    form state `resumeData` (a JavaScript object, which after loading also
    holds every other field of the user document the server sent), and the
    loop that turns that state into the multipart form it uploads. */
module ResumeBuilder {
  import opened Basics
  import opened Text
  import opened Js
  import Resume

  const ExperienceKey: string := "professionalExperience"
  const EducationKey: string := "education"

  /** The two list sections of the form. */
  datatype Section = Experiences | Educations {
    function Key(): string {
      match this
      case Experiences => ExperienceKey
      case Educations => EducationKey
    }

    /** The entry the add buttons append and the load puts into an empty list. */
    function Blank(): (r: Value)
      ensures r.Obj? && "id" !in Keys(r.fields)
    {
      match this
      case Experiences =>
        Obj([Field("jobTitle", Str("")), Field("company", Str("")), Field("duration", Str("")), Field("description", Str(""))])
      case Educations =>
        Obj([Field("degree", Str("")), Field("institution", Str("")), Field("year", Str(""))])
    }
  }

  /** The properties other than the two list sections, as the page starts
      them and as a delete leaves them. */
  function OtherDefaults(): seq<Field> {
    [ Field("skills", Arr([])),
      Field("languages", Arr([])),
      Field("linkedin", Str("")),
      Field("github", Str("")),
      Field("image", Null) ]
  }

  /** The state the page starts from: one blank entry per list section. */
  function InitialState(): seq<Field> {
    [Field(ExperienceKey, Arr([Experiences.Blank()])), Field(EducationKey, Arr([Educations.Blank()]))]
    + OtherDefaults()
  }

  /** The state after the server confirmed deleting the resume. */
  function DeletedState(): seq<Field> {
    [Field(ExperienceKey, Arr([])), Field(EducationKey, Arr([]))] + OtherDefaults()
  }

  /** After a delete the form is the initial form without the two blank
      placeholder entries, whatever it held before. */
  lemma DeletedStateIsEmptiedInitialState()
    ensures DeletedState() == Put(Put(InitialState(), ExperienceKey, Arr([])), EducationKey, Arr([]))
  {
    assert ExperienceKey[0] != EducationKey[0];
    PutFirstTwo(Field(ExperienceKey, Arr([Experiences.Blank()])), Field(EducationKey, Arr([Educations.Blank()])),
                OtherDefaults(), Arr([]), Arr([]));
  }

  /** Putting the first two properties, one after the other, replaces their
      values in place. */
  lemma PutFirstTwo(first: Field, second: Field, tail: seq<Field>, u: Value, w: Value)
    requires first.key != second.key
    ensures Put(Put([first, second] + tail, first.key, u), second.key, w)
            == [Field(first.key, u), Field(second.key, w)] + tail
  {
    PutFirst(first, second, tail, u);
    PutSecond(Field(first.key, u), second, tail, w);
  }

  lemma PutFirst(first: Field, second: Field, tail: seq<Field>, u: Value)
    ensures Put([first, second] + tail, first.key, u) == [Field(first.key, u), second] + tail
  {
    assert [first, second] + tail == [first] + ([second] + tail);
    PutHead(first, [second] + tail, u);
    assert [Field(first.key, u), second] + tail == [Field(first.key, u)] + ([second] + tail);
  }

  lemma PutSecond(first: Field, second: Field, tail: seq<Field>, w: Value)
    requires first.key != second.key
    ensures Put([first, second] + tail, second.key, w) == [first, Field(second.key, w)] + tail
  {
    assert [first, second] + tail == [first] + ([second] + tail);
    PutPastHead(first, [second] + tail, second.key, w);
    PutHead(second, tail, w);
    assert [first, Field(second.key, w)] + tail == [first] + ([Field(second.key, w)] + tail);
  }

  // ---------------------------------------------------------------------------
  // Loading

  /** Whether `v.length` is truthy, for a value that is not `null` or
      `undefined`. */
  predicate LengthTruthy(v: Value) {
    match v
    case Arr(items) => |items| > 0
    case Str(s) => |s| > 0
    case Obj(fields) => Truthy(Get(fields, "length"))
    case _ => false
  }

  /** `response.data.list.length ? response.data.list : [blank]`. */
  function ListOrPlaceholder(v: Value, section: Section): (r: Value)
    ensures v.Arr? && |v.items| > 0 ==> r == v
    ensures v.Arr? && v.items == [] ==> r == Arr([section.Blank()])
  {
    if LengthTruthy(v) then v else Arr([section.Blank()])
  }

  /** The load handler: `{ ...resumeData, ...data, professionalExperience: …,
      education: … }`. Falsy data leaves the state as it is; so does data
      without one of the two lists, where reading `.length` throws and the
      rejection handler only logs. The server sends a user document, so a
      truthy answer is an object. In the page, `resumeData` is the state
      captured when the component mounted, so `state` is that state: edits
      made before the answer arrives are overwritten by the load. */
  function LoadMerge(state: seq<Field>, data: Value): (r: seq<Field>)
    requires Truthy(data) ==> data.Obj?
  {
    if !Truthy(data) then state else LoadFields(state, data.fields)
  }

  /** The load handler for an object answer with properties `fields`. */
  function LoadFields(state: seq<Field>, fields: seq<Field>): seq<Field> {
    var experience := Get(fields, ExperienceKey);
    var education := Get(fields, EducationKey);
    if experience.Null? || experience.Undefined? || education.Null? || education.Undefined? then state
    else
      Put(Put(Assign(state, fields), ExperienceKey, ListOrPlaceholder(experience, Experiences)),
          EducationKey, ListOrPlaceholder(education, Educations))
  }

  /** A load takes both lists from the server, an empty one replaced by a
      single blank entry. */
  lemma LoadLists(state: seq<Field>, fields: seq<Field>)
    requires DistinctKeys(fields)
    requires Get(fields, ExperienceKey).Arr? && Get(fields, EducationKey).Arr?
    ensures Get(LoadMerge(state, Obj(fields)), ExperienceKey) == ListOrPlaceholder(Get(fields, ExperienceKey), Experiences)
    ensures Get(LoadMerge(state, Obj(fields)), EducationKey) == ListOrPlaceholder(Get(fields, EducationKey), Educations)
  {
    var once := Put(Assign(state, fields), ExperienceKey, ListOrPlaceholder(Get(fields, ExperienceKey), Experiences));
    assert Truthy(Obj(fields));
    assert LoadMerge(state, Obj(fields)) == LoadFields(state, fields);
    assert LoadFields(state, fields) == Put(once, EducationKey, ListOrPlaceholder(Get(fields, EducationKey), Educations));
    assert Get(once, ExperienceKey) == ListOrPlaceholder(Get(fields, ExperienceKey), Experiences);
  }

  /** Every other property the server sent overwrites the local one, and
      the local properties it did not send stay. */
  lemma LoadOverwrites(state: seq<Field>, fields: seq<Field>, k: string)
    requires DistinctKeys(fields)
    requires Get(fields, ExperienceKey).Arr? && Get(fields, EducationKey).Arr?
    requires k != ExperienceKey && k != EducationKey
    ensures Get(LoadMerge(state, Obj(fields)), k) == if k in Keys(fields) then Get(fields, k) else Get(state, k)
  {
    var merged := Assign(state, fields);
    AssignGet(state, fields, k);
    var once := Put(merged, ExperienceKey, ListOrPlaceholder(Get(fields, ExperienceKey), Experiences));
    assert Truthy(Obj(fields));
    assert LoadMerge(state, Obj(fields)) == LoadFields(state, fields);
    assert LoadFields(state, fields) == Put(once, EducationKey, ListOrPlaceholder(Get(fields, EducationKey), Educations));
    assert Get(once, k) == Get(merged, k);
  }

  /** After a load the state has the local names and the server's names. */
  lemma LoadKeys(state: seq<Field>, fields: seq<Field>)
    requires DistinctKeys(fields)
    requires Get(fields, ExperienceKey).Arr? && Get(fields, EducationKey).Arr?
    ensures forall k :: k in Keys(LoadMerge(state, Obj(fields))) <==> k in Keys(state) || k in Keys(fields)
  {
    var merged := Assign(state, fields);
    var once := Put(merged, ExperienceKey, ListOrPlaceholder(Get(fields, ExperienceKey), Experiences));
    var twice := Put(once, EducationKey, ListOrPlaceholder(Get(fields, EducationKey), Educations));
    assert Truthy(Obj(fields));
    assert LoadMerge(state, Obj(fields)) == LoadFields(state, fields) == twice;
    AssignKeys(state, fields);
    assert ExperienceKey in Keys(fields) && EducationKey in Keys(fields);
    assert Keys(once) == Keys(merged);
  }

  /** A load keeps the property names distinct. */
  lemma LoadDistinct(state: seq<Field>, fields: seq<Field>)
    requires DistinctKeys(fields) && DistinctKeys(state)
    requires Get(fields, ExperienceKey).Arr? && Get(fields, EducationKey).Arr?
    ensures DistinctKeys(LoadMerge(state, Obj(fields)))
  {
    var merged := Assign(state, fields);
    var v1 := ListOrPlaceholder(Get(fields, ExperienceKey), Experiences);
    var once := Put(merged, ExperienceKey, v1);
    assert Truthy(Obj(fields));
    assert LoadMerge(state, Obj(fields)) == LoadFields(state, fields);
    AssignKeys(state, fields);
    PutDistinct(merged, ExperienceKey, v1);
    PutDistinct(once, EducationKey, ListOrPlaceholder(Get(fields, EducationKey), Educations));
  }

  /** A load that finds neither list, or no data, changes nothing. */
  lemma LoadWithoutListsKeepsState(state: seq<Field>, fields: seq<Field>)
    requires DistinctKeys(fields)
    requires ExperienceKey !in Keys(fields)
    ensures LoadMerge(state, Obj(fields)) == state
    ensures LoadMerge(state, Null) == state
  {
  }

  // ---------------------------------------------------------------------------
  // Editing

  /** `{ ...v }` for a value that is not a string or an array: the own
      properties of a plain object, none for anything else. */
  function Spread(v: Value): seq<Field>
    requires !v.Str? && !v.Arr?
  {
    if v.Obj? then v.fields else []
  }

  /** `{ ...entry, [name]: value }` for one entry of a list section. */
  function SetProperty(entry: Value, name: string, value: string): (r: Value)
    requires !entry.Str? && !entry.Arr?
    ensures r.Obj? && Get(r.fields, name) == Str(value)
    ensures forall p :: p != name ==> Get(r.fields, p) == Get(Spread(entry), p)
    ensures Keys(r.fields) == if name in Keys(Spread(entry)) then Keys(Spread(entry)) else Keys(Spread(entry)) + [name]
  {
    Obj(Put(Spread(entry), name, Str(value)))
  }

  /** The state with the entry at `index` of the list under `key` replaced. */
  function ReplaceEntry(state: seq<Field>, key: string, index: nat, entry: Value): (r: seq<Field>)
    requires Get(state, key).Arr? && index < |Get(state, key).items|
    ensures Get(r, key) == Arr(Get(state, key).items[index := entry])
    ensures forall k :: k != key ==> Get(r, k) == Get(state, k)
    ensures Keys(r) == Keys(state)
  {
    assert key in Keys(state);
    Put(state, key, Arr(Get(state, key).items[index := entry]))
  }

  /** `handleInputChange(e, index, section)` for an input named `name` whose
      value is `value` (an input's value is always a string, so `value || ''`
      is `value`). In a list section the entry at `index` gets the property;
      otherwise the state does, which turns `skills` and `languages` into
      strings once they are edited. */
  function HandleInputChange(state: seq<Field>, name: string, value: string, index: nat, section: Option<Section>): (r: seq<Field>)
    requires section.Some? ==> Get(state, section.value.Key()).Arr?
    requires section.Some? ==> index < |Get(state, section.value.Key()).items|
    requires section.Some? ==> !Get(state, section.value.Key()).items[index].Str? && !Get(state, section.value.Key()).items[index].Arr?
    ensures section.None? ==> Get(r, name) == Str(value) && forall k :: k != name ==> Get(r, k) == Get(state, k)
    ensures section.None? ==> Keys(r) == if name in Keys(state) then Keys(state) else Keys(state) + [name]
    ensures section.Some? ==> Keys(r) == Keys(state)
    ensures section.Some? ==>
              var key := section.value.Key();
              var before := Get(state, key).items;
              && Get(r, key).Arr? && |Get(r, key).items| == |before|
              && (forall j :: 0 <= j < |before| && j != index ==> Get(r, key).items[j] == before[j])
              && Get(r, key).items[index].Obj?
              && Get(Get(r, key).items[index].fields, name) == Str(value)
              && (forall p :: p != name ==> Get(Get(r, key).items[index].fields, p) == Get(Spread(before[index]), p))
              && Keys(Get(r, key).items[index].fields)
                 == (if name in Keys(Spread(before[index])) then Keys(Spread(before[index]))
                     else Keys(Spread(before[index])) + [name])
              && (forall k :: k != key ==> Get(r, k) == Get(state, k))
  {
    match section
    case Some(s) =>
      var items := Get(state, s.Key()).items;
      ReplaceEntry(state, s.Key(), index, SetProperty(items[index], name, value))
    case None =>
      Put(state, name, Str(value))
  }

  /** `handleFileChange(e)` with the first selected file, if any: only an
      image file is stored. */
  function HandleFileChange(state: seq<Field>, file: Option<FileInfo>): (r: seq<Field>)
    ensures file.Some? && StartsWith(file.value.mimeType, "image/") ==>
              && Get(r, "image") == File(file.value)
              && (forall k :: k != "image" ==> Get(r, k) == Get(state, k))
              && Keys(r) == if "image" in Keys(state) then Keys(state) else Keys(state) + ["image"]
    ensures !(file.Some? && StartsWith(file.value.mimeType, "image/")) ==> r == state
  {
    if file.Some? && StartsWith(file.value.mimeType, "image/") then Put(state, "image", File(file.value)) else state
  }

  /** `handleAddExperience` and `handleAddEducation`: one blank entry at the
      end of the section, nothing else changed. */
  function AddEntry(state: seq<Field>, section: Section): (r: seq<Field>)
    requires Get(state, section.Key()).Arr?
    ensures Get(r, section.Key()) == Arr(Get(state, section.Key()).items + [section.Blank()])
    ensures forall k :: k != section.Key() ==> Get(r, k) == Get(state, k)
    ensures Keys(r) == Keys(state)
  {
    Put(state, section.Key(), Arr(Get(state, section.Key()).items + [section.Blank()]))
  }

  /** The local branch of `handleDeleteExperience` and
      `handleDeleteEducation`, taken for an entry without a truthy `id`:
      the list keeps every entry whose position is not `index`. */
  function RemoveEntry(state: seq<Field>, section: Section, index: int): (r: seq<Field>)
    requires Get(state, section.Key()).Arr?
    requires 0 <= index < |Get(state, section.Key()).items|
    requires var entry := Get(state, section.Key()).items[index];
             !entry.Null? && !entry.Undefined? && !(entry.Obj? && Truthy(Get(entry.fields, "id")))
    ensures forall k :: k != section.Key() ==> Get(r, k) == Get(state, k)
    ensures Get(r, section.Key()).Arr?
    ensures Keys(r) == Keys(state)
  {
    Put(state, section.Key(), Arr(WithoutPosition(Get(state, section.Key()).items, index)))
  }

  /** The properties besides the two list sections are named once each. */
  lemma OtherDefaultsDistinct()
    ensures DistinctKeys(OtherDefaults())
  {
    var d := OtherDefaults();
    forall i, j | 0 <= i < j < |d| ensures d[i].key != d[j].key {
      assert |d[i].key| != |d[j].key| || d[i].key[0] != d[j].key[0];
    }
  }

  /** Neither list section is among the other properties. */
  lemma OtherDefaultsLeaveOutLists()
    ensures ExperienceKey !in Keys(OtherDefaults()) && EducationKey !in Keys(OtherDefaults())
  {
    var d := OtherDefaults();
    forall i | 0 <= i < |d| ensures d[i].key != ExperienceKey && d[i].key != EducationKey {
      assert |d[i].key| < |ExperienceKey|;
      assert |d[i].key| != |EducationKey| || d[i].key[0] != EducationKey[0];
    }
    assert forall i :: 0 <= i < |d| ==> Keys(d)[i] == d[i].key;
  }

  /** Both states the page sets wholesale name each property once. */
  lemma StartingStatesHaveDistinctKeys()
    ensures DistinctKeys(InitialState()) && DistinctKeys(DeletedState())
  {
    OtherDefaultsDistinct();
    OtherDefaultsLeaveOutLists();
    FrontTwoDistinct(Field(ExperienceKey, Arr([Experiences.Blank()])), Field(EducationKey, Arr([Educations.Blank()])), OtherDefaults());
    FrontTwoDistinct(Field(ExperienceKey, Arr([])), Field(EducationKey, Arr([])), OtherDefaults());
  }

  /** Two properties in front of distinctly named ones, under names of their
      own, keep the names distinct. */
  lemma FrontTwoDistinct(first: Field, second: Field, tail: seq<Field>)
    requires DistinctKeys(tail) && second.key !in Keys(tail)
    requires first.key != second.key && first.key !in Keys(tail)
    ensures DistinctKeys([first, second] + tail)
  {
    var t := [second] + tail;
    DistinctKeysCons(second, tail);
    KeysCons(second, tail);
    assert first.key !in [second.key] + Keys(tail);
    DistinctKeysCons(first, t);
    assert [first] + t == [first, second] + tail;
  }

  /** Editing a property of the state keeps each property named once. */
  lemma InputChangeKeepsDistinctKeys(state: seq<Field>, name: string, value: string, index: nat, section: Option<Section>)
    requires DistinctKeys(state)
    requires section.Some? ==> Get(state, section.value.Key()).Arr?
    requires section.Some? ==> index < |Get(state, section.value.Key()).items|
    requires section.Some? ==> !Get(state, section.value.Key()).items[index].Str? && !Get(state, section.value.Key()).items[index].Arr?
    ensures DistinctKeys(HandleInputChange(state, name, value, index, section))
  {
    if section.None? {
      PutDistinct(state, name, Str(value));
    } else {
      DistinctKeysOfKeys(state, HandleInputChange(state, name, value, index, section));
    }
  }

  /** Choosing a file keeps each property named once. */
  lemma FileChangeKeepsDistinctKeys(state: seq<Field>, file: Option<FileInfo>)
    requires DistinctKeys(state)
    ensures DistinctKeys(HandleFileChange(state, file))
  {
    if file.Some? {
      PutDistinct(state, "image", File(file.value));
    }
  }

  /** Adding and removing entries keeps each property named once. */
  lemma EntryEditsKeepDistinctKeys(state: seq<Field>, section: Section, index: int)
    requires DistinctKeys(state)
    requires Get(state, section.Key()).Arr?
    ensures DistinctKeys(AddEntry(state, section))
    ensures 0 <= index < |Get(state, section.Key()).items|
            && (var entry := Get(state, section.Key()).items[index];
                !entry.Null? && !entry.Undefined? && !(entry.Obj? && Truthy(Get(entry.fields, "id"))))
            ==> DistinctKeys(RemoveEntry(state, section, index))
  {
    DistinctKeysOfKeys(state, AddEntry(state, section));
    if 0 <= index < |Get(state, section.Key()).items| {
      var entry := Get(state, section.Key()).items[index];
      if !entry.Null? && !entry.Undefined? && !(entry.Obj? && Truthy(Get(entry.fields, "id"))) {
        DistinctKeysOfKeys(state, RemoveEntry(state, section, index));
      }
    }
  }

  /** Local removal drops exactly the entry at `index`, keeping the others in
      order, as the server's `splice` does for the same position. */
  lemma RemoveEntryIsSplice(state: seq<Field>, section: Section, index: int)
    requires Get(state, section.Key()).Arr?
    requires 0 <= index < |Get(state, section.Key()).items|
    requires var entry := Get(state, section.Key()).items[index];
             !entry.Null? && !entry.Undefined? && !(entry.Obj? && Truthy(Get(entry.fields, "id")))
    ensures var before := Get(state, section.Key()).items;
            var after := Get(RemoveEntry(state, section, index), section.Key()).items;
            && after == Splice(before, index)
            && |after| == |before| - 1
            && (forall j :: 0 <= j < index ==> after[j] == before[j])
            && (forall j :: index <= j < |after| ==> after[j] == before[j + 1])
  {
    WithoutPositionIsSplice(Get(state, section.Key()).items, index);
  }

  /** Adding an entry and then removing it again gives back the list. */
  lemma RemoveUndoesAdd(state: seq<Field>, section: Section)
    requires Get(state, section.Key()).Arr?
    ensures var added := AddEntry(state, section);
            var n := |Get(state, section.Key()).items|;
            Get(RemoveEntry(added, section, n), section.Key()) == Get(state, section.Key())
  {
    var before := Get(state, section.Key()).items;
    var n := |before|;
    var key := section.Key();
    var longer := before + [section.Blank()];
    var added := AddEntry(state, section);
    assert Get(added, key) == Arr(longer);
    assert longer[n] == section.Blank();
    var removed := RemoveEntry(added, section, n);
    assert Get(removed, key) == Arr(WithoutPosition(longer, n));
    WithoutPositionIsSplice(longer, n);
    assert Splice(longer, n) == before;
    assert Get(state, key) == Arr(before);
  }

  // ---------------------------------------------------------------------------
  // Serialisation

  /** One part of a multipart form: text, or an uploaded file. */
  datatype FormEntry =
    | TextEntry(name: string, text: string)
    | FileEntry(name: string, file: FileInfo)

  /** What the loop appends for one property of the state. */
  function EntryFor(f: Field): (r: FormEntry)
    ensures r.name == f.key
    ensures r.FileEntry? <==> f.key == "image" && f.value.File?
  {
    if f.key == "image" && Truthy(f.value) then
      (if f.value.File? then FileEntry("image", f.value.file) else TextEntry("image", ToStr(f.value)))
    else if IsObjectType(f.value) then TextEntry(f.key, Stringify(f.value))
    else TextEntry(f.key, ToStr(OrEmpty(f.value)))
  }

  /** How the entry texts look: lists go as JSON, a missing image as the
      text `null` (since `typeof null` is `'object'`), and falsy scalars as
      the empty text. */
  lemma EntryForCases(key: string, v: Value)
    ensures v.Arr? && key != "image" ==> EntryFor(Field(key, v)) == TextEntry(key, Stringify(v))
    ensures EntryFor(Field("image", Null)) == TextEntry("image", "null")
    ensures !IsObjectType(v) && !Truthy(v) ==> EntryFor(Field(key, v)) == TextEntry(key, "")
    ensures v.Str? ==> EntryFor(Field(key, v)) == TextEntry(key, v.s)
  {
  }

  /** `formData.get(name)`: the first entry with that name. */
  function FormGet(form: seq<FormEntry>, name: string): (r: Option<FormEntry>)
    ensures (forall j :: 0 <= j < |form| ==> form[j].name != name) ==> r == None
    decreases |form|
  {
    if form == [] then None
    else if form[0].name == name then Some(form[0])
    else FormGet(form[1..], name)
  }

  /** Whether what `formData.get` returned is truthy: a file, or a non-empty text. */
  predicate FormValueTruthy(e: Option<FormEntry>) {
    match e
    case None => false
    case Some(FileEntry(_, _)) => true
    case Some(TextEntry(_, text)) => text != ""
  }

  /** The `forEach` over `Object.entries(resumeData)` in
      `handleSaveProgress` and `handleSubmit`. The branch that merges with
      an entry already in the form never runs: the properties of an object
      have distinct names, so no earlier entry has the current name. */
  method BuildFormData(state: seq<Field>) returns (form: seq<FormEntry>)
    requires DistinctKeys(state)
    ensures |form| == |state|
    ensures forall i :: 0 <= i < |state| ==> form[i] == EntryFor(state[i])
  {
    form := [];
    var i := 0;
    while i < |state|
      invariant 0 <= i <= |state|
      invariant |form| == i
      invariant forall j :: 0 <= j < i ==> form[j] == EntryFor(state[j])
    {
      var key, value := state[i].key, state[i].value;
      if key == "image" && Truthy(value) {
        if value.File? {
          form := form + [FileEntry("image", value.file)];
        } else {
          form := form + [TextEntry("image", ToStr(value))];
        }
      } else if IsObjectType(value) {
        var existing := FormGet(form, key);
        if FormValueTruthy(existing) {
          assert false;
        } else {
          form := form + [TextEntry(key, Stringify(value))];
        }
      } else {
        form := form + [TextEntry(key, ToStr(OrEmpty(value)))];
      }
      i := i + 1;
    }
  }

  /** The texts of the form's text entries named `name`, in order: what the
      server's body parser collects for that field. */
  function TextsNamed(form: seq<FormEntry>, name: string): seq<string>
    decreases |form|
  {
    if form == [] then []
    else (if form[0].TextEntry? && form[0].name == name then [form[0].text] else []) + TextsNamed(form[1..], name)
  }

  /** The body field the server sees for `name`. */
  function Received(form: seq<FormEntry>, name: string): Resume.BodyField {
    var texts := TextsNamed(form, name);
    if |texts| == 0 then Resume.Missing
    else if |texts| == 1 then Resume.Single(texts[0])
    else Resume.Repeated(texts)
  }

  lemma {:induction false} TextsNamedAbsent(form: seq<FormEntry>, name: string)
    requires forall j :: 0 <= j < |form| ==> form[j].name != name
    ensures TextsNamed(form, name) == []
    decreases |form|
  {
    if form != [] {
      TextsNamedAbsent(form[1..], name);
    }
  }

  lemma {:induction false} TextsNamedOnce(form: seq<FormEntry>, name: string, i: nat)
    requires i < |form| && form[i].name == name
    requires forall j :: 0 <= j < |form| && j != i ==> form[j].name != name
    ensures TextsNamed(form, name) == if form[i].TextEntry? then [form[i].text] else []
    decreases |form|
  {
    if i == 0 {
      TextsNamedAbsent(form[1..], name);
    } else {
      TextsNamedOnce(form[1..], name, i - 1);
    }
  }

  /** The server receives each property of the state as one body field: a
      text entry arrives as a single value (never as a repeated field, which
      would make the server's `trim` throw), a file arrives as no body field,
      and a name that is not in the state is absent. */
  lemma ServerReceivesEachKeyOnce(state: seq<Field>, form: seq<FormEntry>, k: string)
    requires DistinctKeys(state)
    requires |form| == |state| && forall i :: 0 <= i < |state| ==> form[i] == EntryFor(state[i])
    ensures k !in Keys(state) ==> Received(form, k) == Resume.Missing
    ensures forall i :: 0 <= i < |state| && state[i].key == k ==>
              Received(form, k) == (if form[i].TextEntry? then Resume.Single(form[i].text) else Resume.Missing)
    ensures !Received(form, k).Repeated?
  {
    if k !in Keys(state) {
      TextsNamedAbsent(form, k);
    } else {
      var i :| 0 <= i < |state| && Keys(state)[i] == k;
      TextsNamedOnce(form, k, i);
    }
  }
}
