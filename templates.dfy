/** The template page: which fields each template requires, the check that
    sends the user back to the form when one is missing, and the two HTML
    generators. The generated markup is modelled without the indentation
    and line breaks of the template literals, and of the `<style>` block
    only the rule that carries the background colour is kept. */
module Templates {
  import opened Basics
  import opened Text
  import opened Js

  datatype TemplateKey = Template1 | Template2

  function RequiredFields(t: TemplateKey): seq<string> {
    match t
    case Template1 => ["firstName", "lastName", "email", "professionalExperience", "education"]
    case Template2 => ["firstName", "lastName", "email", "professionalExperience", "skills", "linkedin", "github"]
  }

  function Background(t: TemplateKey): string {
    match t
    case Template1 => "#f0e68c"
    case Template2 => "#f4f4f4"
  }

  /** `Template ${templateKey.slice(-1)}`. */
  function Title(t: TemplateKey): string {
    match t
    case Template1 => "Template 1"
    case Template2 => "Template 2"
  }

  // ---------------------------------------------------------------------------
  // Required fields

  /** A field value the page treats as not filled in: falsy, or an empty array. */
  predicate Missing(v: Value) {
    !Truthy(v) || (v.Arr? && |v.items| == 0)
  }

  /** `a` is `b` with some elements left out, the rest in their order. */
  ghost predicate Subsequence(a: seq<string>, b: seq<string>)
    decreases |b|
  {
    a == [] || (b != [] && ((a[0] == b[0] && Subsequence(a[1..], b[1..])) || Subsequence(a, b[1..])))
  }

  /** `fields.filter(field => !data[field] || (Array.isArray(data[field]) && data[field].length === 0))`:
      exactly the listed fields whose value is missing. */
  function MissingFields(data: seq<Field>, fields: seq<string>): (r: seq<string>)
    ensures forall f :: f in r <==> f in fields && Missing(Get(data, f))
    decreases |fields|
  {
    if fields == [] then []
    else
      var rest := MissingFields(data, fields[1..]);
      assert forall f :: f in fields <==> f == fields[0] || f in fields[1..];
      if Missing(Get(data, fields[0])) then [fields[0]] + rest else rest
  }

  /** The missing fields keep the order of the list. */
  lemma {:induction false} MissingFieldsInOrder(data: seq<Field>, fields: seq<string>)
    ensures Subsequence(MissingFields(data, fields), fields)
    decreases |fields|
  {
    if fields != [] {
      var rest := MissingFields(data, fields[1..]);
      MissingFieldsInOrder(data, fields[1..]);
      if Missing(Get(data, fields[0])) {
        assert ([fields[0]] + rest)[1..] == rest;
      } else {
        SubsequenceDropHead(rest, fields);
      }
    }
  }

  /** A subsequence of the tail is a subsequence of the whole list. */
  lemma SubsequenceDropHead(a: seq<string>, b: seq<string>)
    requires b != [] && Subsequence(a, b[1..])
    ensures Subsequence(a, b)
  {
  }

  /** Which values count as missing: empty text and empty arrays do, any
      non-empty text or array does not. */
  lemma MissingExamples(s: string, items: seq<Value>)
    ensures Missing(Str(s)) <==> s == ""
    ensures Missing(Arr(items)) <==> items == []
    ensures Missing(Undefined) && Missing(Null)
  {
  }

  // ---------------------------------------------------------------------------
  // Template 1

  /** A list value `data.list && data.list.length > 0 ? … : ''` can test and
      map without throwing: falsy, or an array whose entries are not `null`
      or `undefined`, or a value without a `length` (number, boolean, file,
      an object without that property). */
  predicate SectionListOk(v: Value) {
    !Truthy(v) || v.Num? || v.Bool? || v.File? || (v.Obj? && Get(v.fields, "length").Undefined?) ||
    (v.Arr? && forall i :: 0 <= i < |v.items| ==> !v.items[i].Null? && !v.items[i].Undefined?)
  }

  /** `entry.key` for an entry that is not `null` or `undefined`; only plain
      objects have the properties the templates read. */
  function Prop(entry: Value, key: string): Value {
    if entry.Obj? then Get(entry.fields, key) else Undefined
  }

  function ExperienceBlock(job: Value): string {
    "<div class=\"experience\"><h3>" + Interpolate(Prop(job, "company")) + "</h3>"
    + "<p>" + Interpolate(Prop(job, "duration")) + "</p>"
    + "<h4>" + Interpolate(Prop(job, "jobTitle")) + "</h4>"
    + "<p>" + Interpolate(Prop(job, "description")) + "</p></div>"
  }

  function EducationBlock(edu: Value): string {
    "<div class=\"education\"><h3>" + Interpolate(Prop(edu, "institution")) + "</h3>"
    + "<p>" + Interpolate(Prop(edu, "degree")) + " (" + Interpolate(Prop(edu, "year")) + ")</p></div>"
  }

  /** `items.map(block).join('')`. */
  function Blocks(items: seq<Value>, block: Value -> string): string
    decreases |items|
  {
    if items == [] then "" else block(items[0]) + Blocks(items[1..], block)
  }

  /** The blocks of a list are the blocks of its parts, one per entry in order. */
  lemma {:induction false} BlocksAppend(a: seq<Value>, b: seq<Value>, block: Value -> string)
    ensures Blocks(a + b, block) == Blocks(a, block) + Blocks(b, block)
    decreases |a|
  {
    if a == [] {
      assert a + b == b;
    } else {
      BlocksAppend(a[1..], b, block);
      assert (a + b)[1..] == a[1..] + b;
    }
  }

  /** A list renders as one block per entry: the blocks of a one-entry list
      is that entry's block. */
  lemma BlocksSingle(v: Value, block: Value -> string)
    ensures Blocks([v], block) == block(v)
  {
    assert [v][1..] == [];
  }

  /** The Work Experience section, present exactly for a non-empty array. */
  function ExperienceSection(v: Value): (r: string)
    ensures r != "" <==> v.Arr? && |v.items| > 0
  {
    if Truthy(v) && v.Arr? && |v.items| > 0 then
      "<div class=\"section\"><h2>Work Experience</h2>" + Blocks(v.items, ExperienceBlock) + "</div>"
    else ""
  }

  /** The Education section, present exactly for a non-empty array. */
  function EducationSection(v: Value): (r: string)
    ensures r != "" <==> v.Arr? && |v.items| > 0
  {
    if Truthy(v) && v.Arr? && |v.items| > 0 then
      "<div class=\"section\"><h2>Education</h2>" + Blocks(v.items, EducationBlock) + "</div>"
    else ""
  }

  /** The profile picture, present exactly for a truthy `image`. */
  function ImageTag(image: Value): (r: string)
    ensures r != "" <==> Truthy(image)
  {
    if Truthy(image) then
      "<img src=\"http://localhost:5000/" + ToStr(image) + "\" alt=\"Profile Image\" class=\"profile-image\"/>"
    else ""
  }

  /** The mail link line, present exactly for a truthy `email`. */
  function EmailLine(email: Value): (r: string)
    ensures r != "" <==> Truthy(email)
  {
    if Truthy(email) then
      "<p><a href=\"mailto:" + ToStr(email) + "\">" + ToStr(email) + "</a></p>"
    else ""
  }

  function Template1Style(background: string): string {
    "<style>"
    + ".header { background: " + background + "; padding: 10px; border-radius: 8px; margin-bottom: 20px; }</style>"
  }

  /** The lists template 1 renders can be rendered. */
  predicate Template1Renderable(data: seq<Field>) {
    SectionListOk(Get(data, "professionalExperience")) && SectionListOk(Get(data, "education"))
  }

  /** The page template 1 builds from the six values it reads. */
  function Template1Page(firstName: Value, lastName: Value, image: Value, email: Value,
                         experience: Value, education: Value, background: string): string
    requires SectionListOk(experience) && SectionListOk(education)
  {
    Template1Style(background)
    + "<div class=\"container\"><div class=\"header\"><h1>"
    + Interpolate(firstName) + " " + Interpolate(lastName) + "</h1>"
    + ImageTag(image)
    + EmailLine(email)
    + "</div>"
    + ExperienceSection(experience)
    + EducationSection(education)
    + "</div>"
  }

  /** `templateRequirements.template1.htmlContent(data, background)`. */
  function Template1Html(data: seq<Field>, background: string): string
    requires Template1Renderable(data)
  {
    Template1Page(Get(data, "firstName"), Get(data, "lastName"), Get(data, "image"), Get(data, "email"),
                  Get(data, "professionalExperience"), Get(data, "education"), background)
  }

  /** Template 1 reads only the names, the image, the email and the two
      lists of entries: skills, languages and links never reach its output. */
  lemma Template1Reads(d1: seq<Field>, d2: seq<Field>, background: string)
    requires Template1Renderable(d1) && Template1Renderable(d2)
    requires Get(d1, "firstName") == Get(d2, "firstName")
          && Get(d1, "lastName") == Get(d2, "lastName")
          && Get(d1, "image") == Get(d2, "image")
          && Get(d1, "email") == Get(d2, "email")
          && Get(d1, "professionalExperience") == Get(d2, "professionalExperience")
          && Get(d1, "education") == Get(d2, "education")
    ensures Template1Html(d1, background) == Template1Html(d2, background)
  {
  }

  // ---------------------------------------------------------------------------
  // Template 2

  /** `data.list ? data.list.join(', ') : fallback`: the fallback only for a
      falsy value, so an empty array renders as nothing. */
  function ListText(v: Value, fallback: string): (r: string)
    requires Truthy(v) ==> v.Arr?
    ensures !Truthy(v) ==> r == fallback
    ensures v.Arr? && v.items == [] ==> r == ""
    ensures v.Arr? && |v.items| == 1 ==>
              r == if v.items[0].Undefined? || v.items[0].Null? then "" else ToStr(v.items[0])
    ensures v.Arr? && |v.items| >= 2 ==>
              r == (if v.items[0].Undefined? || v.items[0].Null? then "" else ToStr(v.items[0]))
                   + ", " + ListText(Arr(v.items[1..]), fallback)
    decreases if v.Arr? then |v.items| else 0
  {
    if Truthy(v) then
      JoinValuesCons(v.items, ", ");
      JoinValues(v.items, ", ")
    else fallback
  }

  /** `data.link ? <a href="${data.link}">label</a> : ''`. */
  function LinkTag(v: Value, caption: string): (r: string)
    ensures r != "" <==> Truthy(v)
  {
    if Truthy(v) then "<a href=\"" + ToStr(v) + "\">" + caption + "</a>" else ""
  }

  function Template2Style(background: string): string {
    "<style>"
    + ".header { background-color: " + background + "; padding: 10px; border-radius: 8px; }</style>"
  }

  /** The lists template 2 joins are arrays when they are truthy. */
  predicate Template2Renderable(data: seq<Field>) {
    (Truthy(Get(data, "skills")) ==> Get(data, "skills").Arr?) &&
    (Truthy(Get(data, "languages")) ==> Get(data, "languages").Arr?)
  }

  /** The page template 2 builds from the seven values it reads. */
  function Template2Page(firstName: Value, lastName: Value, email: Value, linkedin: Value, github: Value,
                         skills: Value, languages: Value, background: string): string
    requires Truthy(skills) ==> skills.Arr?
    requires Truthy(languages) ==> languages.Arr?
  {
    Template2Style(background)
    + "<div class=\"container\"><h1>" + Interpolate(firstName) + " " + Interpolate(lastName) + "</h1>"
    + "<div class=\"section\"><h2>Contact Information</h2><p>"
    + (if Truthy(email) then "<a href=\"mailto:" + ToStr(email) + "\">" + ToStr(email) + "</a>" else "No email provided.")
    + "</p><p>" + LinkTag(linkedin, "LinkedIn") + " " + LinkTag(github, "GitHub") + "</p></div>"
    + "<div class=\"section\"><h2>Skills</h2><p>" + ListText(skills, "No skills listed.") + "</p></div>"
    + "<div class=\"section\"><h2>Languages</h2><p>" + ListText(languages, "No Languages listed.") + "</p></div>"
    + "</div>"
  }

  /** `templateRequirements.template2.htmlContent(data, background)`. */
  function Template2Html(data: seq<Field>, background: string): string
    requires Template2Renderable(data)
  {
    Template2Page(Get(data, "firstName"), Get(data, "lastName"), Get(data, "email"),
                  Get(data, "linkedin"), Get(data, "github"), Get(data, "skills"), Get(data, "languages"),
                  background)
  }

  /** Template 2 reads only the names, the contact fields and the two string
      lists: experience, education and image never reach its output. */
  lemma Template2Reads(d1: seq<Field>, d2: seq<Field>, background: string)
    requires Template2Renderable(d1) && Template2Renderable(d2)
    requires Get(d1, "firstName") == Get(d2, "firstName")
          && Get(d1, "lastName") == Get(d2, "lastName")
          && Get(d1, "email") == Get(d2, "email")
          && Get(d1, "linkedin") == Get(d2, "linkedin")
          && Get(d1, "github") == Get(d2, "github")
          && Get(d1, "skills") == Get(d2, "skills")
          && Get(d1, "languages") == Get(d2, "languages")
    ensures Template2Html(d1, background) == Template2Html(d2, background)
  {
  }

  // ---------------------------------------------------------------------------
  // Choosing a template

  predicate Renderable(t: TemplateKey, data: seq<Field>) {
    match t
    case Template1 => Template1Renderable(data)
    case Template2 => Template2Renderable(data)
  }

  function HtmlContent(t: TemplateKey, data: seq<Field>, background: string): string
    requires Renderable(t, data)
  {
    match t
    case Template1 => Template1Html(data, background)
    case Template2 => Template2Html(data, background)
  }

  /** Where a click on a template leads. */
  datatype ClickOutcome =
    | Ignored
    | FillIn(message: string, route: string)
    | Preview(route: string, title: string, html: string, background: string)

  /** `handleTemplateClick(templateKey)` with the loaded user data (`None`
      before it has arrived). The click handler only builds the page when
      nothing is missing, so only then must the data be renderable. */
  function HandleTemplateClick(userData: Option<seq<Field>>, t: TemplateKey): (r: ClickOutcome)
    requires userData.Some? && MissingFields(userData.value, RequiredFields(t)) == [] ==> Renderable(t, userData.value)
    ensures r.Ignored? <==> userData.None?
    ensures r.FillIn? <==> userData.Some? && MissingFields(userData.value, RequiredFields(t)) != []
    ensures r.FillIn? ==> r.route == "/resume" && r.message == Prompt(MissingFields(userData.value, RequiredFields(t)))
    ensures r.Preview? ==> && r.route == "/template-preview" && r.title == Title(t)
                           && r.background == Background(t)
                           && r.html == HtmlContent(t, userData.value, Background(t))
  {
    if userData.None? then Ignored
    else
      var missing := MissingFields(userData.value, RequiredFields(t));
      if |missing| > 0 then FillIn(Prompt(missing), "/resume")
      else Preview("/template-preview", Title(t), HtmlContent(t, userData.value, Background(t)), Background(t))
  }

  /** The alert that lists the missing fields. */
  function Prompt(missing: seq<string>): string {
    "Please fill in the following fields: " + Join(missing, ", ")
  }

  /** The user is sent back to the form exactly when some required field
      is missing, and the preview is shown exactly when none is. */
  lemma ClickOutcomeCases(userData: Option<seq<Field>>, t: TemplateKey)
    requires userData.Some? && MissingFields(userData.value, RequiredFields(t)) == [] ==> Renderable(t, userData.value)
    ensures userData.Some? ==>
              (HandleTemplateClick(userData, t).FillIn? <==> exists f :: f in RequiredFields(t) && Missing(Get(userData.value, f)))
    ensures userData.Some? ==>
              (HandleTemplateClick(userData, t).Preview? <==> forall f :: f in RequiredFields(t) ==> !Missing(Get(userData.value, f)))
  {
    if userData.Some? {
      var missing := MissingFields(userData.value, RequiredFields(t));
      if missing != [] {
        assert missing[0] in missing;
      }
    }
  }

  /** For data as the server sends it (both lists are arrays), a template 1
      preview, which is shown only when no required field is missing, always
      has both list sections, since both lists are required. */
  lemma Template1PreviewHasSections(data: seq<Field>)
    requires Get(data, "professionalExperience").Arr? && Get(data, "education").Arr?
    requires MissingFields(data, RequiredFields(Template1)) == []
    ensures ExperienceSection(Get(data, "professionalExperience")) != ""
    ensures EducationSection(Get(data, "education")) != ""
  {
    var required := RequiredFields(Template1);
    assert required[3] == "professionalExperience" && required[4] == "education";
    assert !Missing(Get(data, required[3])) && !Missing(Get(data, required[4]));
  }
}
