# Resume builder: a Dafny model of its form, template and resume-route logic

The application lets a signed-up user fill in a resume in the browser, save or
submit it to an Express/Mongoose server, and render it through one of two HTML
templates. This project models the logic that decides what ends up in the
stored document and on the page:

- **server.js**: the signup and login checks (with the email pattern), the
  `parseArrayField` helper, the save and submit handlers, the add-education and
  delete-by-index handlers, and the delete-resume handler. The handlers are
  methods that receive the looked-up document, an object of the `User` class
  whose fields they assign, or `null` for an unknown id (`server.dfy`). The rules they apply are pure functions over the resume part
  of a document (`resume.dfy`). Signup and login are in `accounts.dfy`.
- **src/pages/ResumeBuilder.js**: the form state `resumeData`, its initial
  value, the load merge, `handleInputChange`, `handleFileChange`, the add and
  local remove buttons, the `FormData` loop of save and submit, and the reset
  after a delete (`resume_builder.dfy`).
- **src/pages/Templates.js**: the required fields of each template, the
  missing-field filter, the click handler, and the two `htmlContent`
  generators (`templates.dfy`).

Browser-side values are JavaScript values (`js.dfy`). An object is its list of
own properties in insertion order, so `Object.entries`, object spread and
property lookup keep the order and the replace-in-place rule of JavaScript.
(JavaScript lists integer-like property names first, in ascending order; the
form's names are never integer-like, so the model leaves that rule out.)
`String(v)` and `JSON.stringify(v)` are written out for the values the pages
convert. `text.dfy` holds the string primitives both sides use: the
white-space class of `\s` and `trim`, `split(',')`, `join`, `startsWith`, and
`length` counted in UTF-16 code units. It also holds the search for the
first `@` that the one-pass form of the email pattern uses.

Everything outside the program's own logic is a parameter:

- `JSON.parse` on the server is a parser passed in. It is left uninterpreted,
  apart from the three outcomes `parseArrayField` distinguishes: an array,
  another value, or a syntax error.
- Whether `user.save()` / `newUser.save()` succeeds is a `saved` flag.
- `bcrypt.hash` is the given hash, and `bcrypt.compare` is a predicate.
- The identifier the store assigns is an input.
- The file multer stored is the upload's file name.
- A file to delete is reported as its path.

Three things the code does that a reader may not expect are modelled as the
code does them:

- A save or submit without `skills` or `languages`, or with a blank one,
  stores an empty list. `parseArrayField(skills)` is called without an
  existing value and always returns an array. Arrays are truthy, so the
  `|| user.skills` fallback never applies.
- The delete-resume handler keeps `submitted` as it was.
- The page's two delete buttons test `entry.id`, but the server sends
  sub-documents keyed `_id`. Entries loaded from the server therefore also
  take the local removal branch. The model keeps the test as written, and
  `ResumeBuilder.RemoveEntry` is that branch.

## Model

| member | source | states |
|---|---|---|
| Basics.Splice | server.js:268 | `splice(index, 1)` shortens the list by one, keeps the elements before `index`, shifts the later ones down, and removes exactly one occurrence of the element at `index` (multiset) |
| Basics.WithoutPosition | src/pages/ResumeBuilder.js:133 | `filter((_, i) => i !== index)` keeps every element whose position differs from `index`, for any `index`; WithoutPositionIsSplice relates it to splice |
| Basics.WithoutPositionIsSplice | src/pages/ResumeBuilder.js:133 | the page's `filter((_, i) => i !== index)` equals the server's `splice(index, 1)` for every in-range index, and keeps the whole list for any other index |
| Basics.WithoutPositionLength | src/pages/ResumeBuilder.js:159 | the positional filter shortens a list by exactly one for an in-range index |
| Text.TrimStart | server.js:161 | the result is a suffix of the text, everything dropped is white space, and the result does not start with white space |
| Text.TrimEnd | server.js:161 | the result is a prefix of the text, everything dropped is white space, and the result does not end with white space |
| Text.Trim | server.js:181 | `trim()` is no longer than the text and neither starts nor ends with white space |
| Text.TrimIsInfix | server.js:181 | `trim()` returns a contiguous piece of the text with only white space before and after it |
| Text.TrimEmptyIffAllSpace | server.js:156 | `field.trim() !== ''` holds exactly when the text has a character that is not white space |
| Text.TrimKeepsTrimmed | server.js:161 | a text that neither starts nor ends with white space is unchanged by `trim()` |
| Text.TrimIdempotent | server.js:181 | trimming a trimmed link again changes nothing |
| Text.Split | server.js:161 | `split(',')` yields at least one piece, and no piece contains the separator |
| Text.SplitJoin | server.js:161 | joining the pieces of `split(',')` with the separator gives the text back, and there is one piece more than there are separators |
| Text.Utf16Length | server.js:85 | `password.length` counts UTF-16 code units: at least one and at most two per character, one per character exactly when none lies above U+FFFF, and a single character counts 2 when above U+FFFF and 1 otherwise |
| Text.Utf16LengthAppend | server.js:85 | the length of a concatenation is the sum of the lengths, which with the one-character case fixes the length of every text |
| Text.Utf16LengthExamples | server.js:85 | three characters outside the Basic Multilingual Plane have length 6, as six ASCII letters do |
| Accounts.EmailRegexTest | server.js:71 | `emailRegex.test(email)` computed in one pass; EmailRegexTestCorrect states that it accepts exactly the pattern's language |
| Accounts.EmailRegexTestSound | server.js:71 | every text the one-pass test accepts matches `/^[^\s@]+@[^\s@]+\.[^\s@]+$/` |
| Accounts.EmailRegexTestComplete | server.js:71 | every text matching the pattern is accepted by the one-pass test |
| Accounts.EmailRegexTestCorrect | server.js:71 | the one-pass test accepts exactly the language of the pattern |
| Accounts.Signup | server.js:74-108 | a registration answers 201 with the new id, and every refusal answers 400 or 500 |
| Accounts.SignupAcceptance | server.js:77-102 | signup succeeds exactly when all four fields are given, the email matches the pattern, the password is at least 6 UTF-16 code units long, the email is unused and the write succeeds; the new account map then adds exactly that email, holding the new id, the given first and last name, the email and the hash, and changes no other account |
| Accounts.SignupRefusals | server.js:77-107 | the checks run in the handler's order and the first one that fails answers 400 with its message: missing field, email format, password length, existing user; 500 comes exactly when every check passes and the write fails |
| Accounts.Login | server.js:111-137 | a missing email or password answers 400; 200 comes exactly for a known email whose hash matches the password, and returns that account's id; every other answer is the 401 "Invalid email or password" |
| Accounts.LoginDoesNotRevealAccounts | server.js:119-127 | an unknown email and a wrong password get the same 401 answer |
| Resume.TrimmedPieces | server.js:161 | the comma fallback gives one trimmed piece per separated piece of the text |
| Resume.ParseArrayField | server.js:154-165 | an array field is returned as is; a non-blank text gives the parsed array, the trimmed comma pieces on a syntax error, or the default for another JSON value; an absent or blank field gives the default: `existingField`, or the empty list when that is absent |
| Resume.ReplaceList | server.js:175-176 | a truthy list field is replaced wholesale by what `JSON.parse` makes of its text (a failure when that throws), and a falsy one keeps the stored list |
| Resume.ReplaceLink | server.js:181-182 | the link becomes the trimmed text when that is non-empty and stays when the field is absent or blank; an array-valued field (no `trim`) makes the handler fail |
| Resume.MergeResume | server.js:173-191 | the save rules fail exactly when a list field does not parse or a link arrives as an array; otherwise each list is its `ReplaceList` result, skills and languages are `parseArrayField` of the field alone, each link is its `ReplaceLink` result, the image is the upload's path or the stored one, and `submitted` is unchanged |
| Resume.SavedFields | server.js:175-182 | after a save, a list of sub-records is the parsed text for a truthy field and the stored list otherwise, skills and languages are what `parseArrayField` decodes, and a link is the trimmed text when non-empty and the stored link otherwise |
| Resume.UndecodableStringListBecomesEmpty | server.js:178-179 | a blank `skills` text, or one that parses to a non-array, stores an empty list, since `parseArrayField` gets no stored value to fall back on |
| Resume.ResetResume | server.js:309-324 | delete-resume empties both lists, both string lists, both links and the image, keeps `submitted`, and reports the image for deletion exactly when there was one |
| Resume.SubmitResume | server.js:207-227 | a successful submit always leaves `submitted` set |
| Resume.RemoveAt | server.js:261-273 | removal succeeds exactly for a parsed index within range, and then is `splice(index, 1)` |
| Resume.SaveReplacesStringLists | server.js:178-179 | the stored skills and languages never influence the saved ones |
| Resume.AbsentStringListBecomesEmpty | server.js:178-179 | an absent or empty `skills`/`languages` field stores an empty list |
| Resume.MalformedListRejects | server.js:175-176 | a list field that does not parse fails the whole save and submit |
| Resume.BlankListTextIsParsed | server.js:175-176 | any non-empty text of a list of sub-records, white space only included, is truthy and replaced by its parse instead of keeping the stored list, while a blank string-list text falls back to the default |
| Resume.ImageReplacement | server.js:184-191 | with an upload the new path is stored and the previous image, if any, is reported for deletion; without one the image stays and nothing is reported |
| Resume.SubmitIsSaveThenFlag | server.js:209-227 | submit fails exactly when save fails, and otherwise yields the save result with `submitted` set |
| Resume.SaveIdempotentWithoutUpload | server.js:173-191 | saving the same form again without an upload leaves the document as the first save left it |
| Resume.ResetTwice | server.js:309-324 | delete-resume empties the lists and the links, clears the image, keeps `submitted`, reports the image once, and a second delete changes and reports nothing |
| Resume.SubmittedIsNeverCleared | server.js:227 | no save, submit or delete-resume clears `submitted` |
| Resume.CommaFallbackExamples | server.js:161 | `"a,,b"` falls back to `["a", "", "b"]`: the pieces are trimmed and empty pieces are kept |
| Server.User.constructor | server.js:96 | `new User(...)` in signup: a new document holds the given identity, the fields Accounts.Signup records, and the schema's empty resume with `submitted` false |
| Server.User.Assign | server.js:45-67 | assigning a resume sets every resume field and leaves the identity and credential fields alone |
| Server.UpdateResume | server.js:170-198 | the shared body of save and submit: a parse or `trim` failure answers 500 and changes and deletes nothing; otherwise the stale image is reported, and the document becomes the merged record exactly when the write succeeds |
| Server.SaveResume | server.js:168-199 | an unknown id answers 404; otherwise the answer, the deleted image and the new document are those of the save rules |
| Server.SubmitResumeRoute | server.js:202-235 | as save, with the submit rules; a successful submit leaves the document submitted |
| Server.AddEducation | server.js:238-257 | a missing field answers 400 before the lookup; an unknown id answers 404; otherwise exactly one entry is appended when the write succeeds |
| Server.DeleteExperience | server.js:260-278 | 404 for an unknown id, 400 and no change for a NaN or out-of-range index, otherwise the `splice` result when the write succeeds |
| Server.DeleteEducation | server.js:281-299 | as above for the education list |
| Server.DeleteResume | server.js:302-332 | 404 for an unknown id; otherwise the image is reported for deletion, and the document becomes the reset record exactly when the write succeeds |
| Js.OrEmpty | src/pages/Templates.js:31 | `v or ''` inserts `v` when it is truthy and the empty text otherwise |
| Js.ToStr | src/pages/Templates.js:31 | `String(v)`, what a template literal inserts: arrays joined with commas, `null` and `undefined` elements empty, objects and files as their tags |
| Js.Stringify | src/pages/ResumeBuilder.js:183 | `JSON.stringify` of the values the form holds; StringifyStringReadsBack and UnescapeEscape state that strings survive it |
| Js.Assign | src/pages/ResumeBuilder.js:37-39 | `{ ...a, ...b }` puts `b`'s properties into `a` one after another; AssignGet and AssignKeys state what it reads and which names it has |
| Js.Keys | src/pages/ResumeBuilder.js:170 | `Object.entries` visits the properties in insertion order (the form has no integer-like names, which JavaScript would list first) |
| Js.Get | src/pages/Templates.js:127 | a missing property reads as `undefined`, and a present one reads as its value |
| Js.Put | src/pages/ResumeBuilder.js:76 | `{ ...o, [k]: v }` reads `v` at `k` and the old value elsewhere; an existing name keeps its place and a new one is added last |
| Js.PutDistinct | src/pages/ResumeBuilder.js:67 | setting a property keeps the property names distinct |
| Js.AssignGet | src/pages/ResumeBuilder.js:37-39 | after `{ ...a, ...b }` a property has `b`'s value when `b` has it and `a`'s otherwise |
| Js.AssignKeys | src/pages/ResumeBuilder.js:37-39 | a spread has the names of both objects and no name twice |
| Js.HexDigit | src/pages/ResumeBuilder.js:183 | the hexadecimal digit `JSON.stringify` writes in a `\u00XX` escape reads back as its value |
| Js.UnescapeEscape | src/pages/ResumeBuilder.js:183 | the escapes `JSON.stringify` writes for a string lose nothing: reading them back gives the string |
| Js.StringifyStringReadsBack | src/pages/ResumeBuilder.js:183 | `JSON.stringify` of a string is that string quoted, and the text between the quotes reads back as the string |
| Templates.RequiredFields | src/pages/Templates.js:14 | template 1 requires the names, email, experience and education; template 2 (line 64) the names, email, experience, skills and both links |
| Templates.MissingFields | src/pages/Templates.js:126-128 | the filter keeps exactly the required fields whose value is falsy or an empty array |
| Templates.MissingFieldsInOrder | src/pages/Templates.js:126-128 | the missing fields keep the order of the required list |
| Templates.MissingExamples | src/pages/Templates.js:127 | an empty text, an empty array, `undefined` and `null` count as missing, and a non-empty text or array does not |
| Templates.BlocksAppend | src/pages/Templates.js:38-45 | `map(...).join('')` of two lists one after the other is the two outputs one after the other |
| Templates.BlocksSingle | src/pages/Templates.js:38-45 | a one-entry list renders as that entry's block |
| Templates.ExperienceSection | src/pages/Templates.js:35-47 | the Work Experience section is present exactly for a non-empty array |
| Templates.EducationSection | src/pages/Templates.js:48-58 | the Education section is present exactly for a non-empty array |
| Templates.ImageTag | src/pages/Templates.js:32 | the picture is present exactly for a truthy `image` |
| Templates.EmailLine | src/pages/Templates.js:33 | the mail link is present exactly for a truthy `email` |
| Templates.Template1Page | src/pages/Templates.js:29-59 | the header with the names, picture and mail line, then the experience and education sections, in source order |
| Templates.Template1Html | src/pages/Templates.js:16-61 | `htmlContent` of template 1: the style rule with the background, then the page built from the six properties it reads |
| Templates.Template1Reads | src/pages/Templates.js:16-61 | template 1's page depends only on the names, image, email, experience and education |
| Templates.ListText | src/pages/Templates.js:87 | a falsy list shows the fallback, an empty array shows nothing, a one-element list shows that element's text (`null` and `undefined` empty), and a longer list shows its first element's text, `", "`, then the text of the rest (`null` and `undefined` elements empty) |
| Templates.LinkTag | src/pages/Templates.js:83 | a link is present exactly for a truthy value |
| Templates.Template2Page | src/pages/Templates.js:78-93 | the names, the contact section (mail link or "No email provided.", both links), then the skills and languages sections, in source order |
| Templates.Template2Html | src/pages/Templates.js:66-95 | `htmlContent` of template 2: the style rule with the background, then the page built from the seven properties it reads |
| Templates.Template2Reads | src/pages/Templates.js:66-95 | template 2's page depends only on the names, the contact fields, skills and languages |
| Templates.HandleTemplateClick | src/pages/Templates.js:123-143 | nothing happens before the data has arrived; a missing field sends the user to `/resume` with the prompt listing the missing fields; otherwise the preview gets the title `Template N`, the template's background, and its HTML |
| Templates.ClickOutcomeCases | src/pages/Templates.js:126-142 | the user is sent back exactly when some required field is missing, and the preview is shown exactly when none is |
| Templates.Template1PreviewHasSections | src/pages/Templates.js:14-58 | for server-shaped data that passes the required-field check, the template 1 preview shows both the experience and the education section |
| ResumeBuilder.Section.Blank | src/pages/ResumeBuilder.js:97-111 | a new entry is a plain object without an `id` |
| ResumeBuilder.InitialState | src/pages/ResumeBuilder.js:9-17 | the form starts with one blank entry in each list section, empty skills, languages and links, and a `null` image, in that property order |
| ResumeBuilder.DeletedState | src/pages/ResumeBuilder.js:251-259 | after a confirmed delete the form holds empty lists, empty links and a `null` image |
| ResumeBuilder.StartingStatesHaveDistinctKeys | src/pages/ResumeBuilder.js:9-17 | the initial form and the form after a delete name each property once |
| ResumeBuilder.InputChangeKeepsDistinctKeys | src/pages/ResumeBuilder.js:59-78 | an input change keeps each property of the form named once |
| ResumeBuilder.FileChangeKeepsDistinctKeys | src/pages/ResumeBuilder.js:80-95 | choosing a file keeps each property of the form named once |
| ResumeBuilder.EntryEditsKeepDistinctKeys | src/pages/ResumeBuilder.js:97-136 | adding an entry and removing one locally keep each property of the form named once |
| ResumeBuilder.DeletedStateIsEmptiedInitialState | src/pages/ResumeBuilder.js:251-259 | the form after a delete is the initial form with both lists emptied, in the same property order |
| ResumeBuilder.ListOrPlaceholder | src/pages/ResumeBuilder.js:40-45 | a non-empty list is taken as is, and an empty one becomes a single blank entry |
| ResumeBuilder.LoadMerge | src/pages/ResumeBuilder.js:36-46 | a falsy answer leaves the form as it is; an object answer goes to LoadFields |
| ResumeBuilder.LoadFields | src/pages/ResumeBuilder.js:37-46 | `{ ...resumeData, ...data, professionalExperience: ..., education: ... }`, or no change when a list is missing and `.length` throws |
| ResumeBuilder.LoadLists | src/pages/ResumeBuilder.js:37-46 | after a load both lists are the server's, an empty one replaced by one blank entry |
| ResumeBuilder.LoadOverwrites | src/pages/ResumeBuilder.js:37-39 | every other property the server sent overwrites the local one, and local properties it did not send stay |
| ResumeBuilder.LoadKeys | src/pages/ResumeBuilder.js:37-46 | after a load the form has exactly the local names and the server's names |
| ResumeBuilder.LoadDistinct | src/pages/ResumeBuilder.js:37-46 | a load keeps the property names distinct |
| ResumeBuilder.LoadWithoutListsKeepsState | src/pages/ResumeBuilder.js:36-46 | a falsy answer, or one without the experience list (its `.length` throws), leaves the form unchanged |
| ResumeBuilder.HandleInputChange | src/pages/ResumeBuilder.js:59-78 | in a list section only the entry at `index` changes, gaining the new value under the input's name and keeping its other properties; its property names stay in order with the input's name added at the end when new, and the form's names are unchanged; outside a section only the named property changes, and its name is added at the end when new; every other property of the form is unchanged |
| ResumeBuilder.HandleFileChange | src/pages/ResumeBuilder.js:80-95 | an image file is stored under `image` and nothing else changes, `image` keeping its place or added at the end; no file or a non-image file leaves the form unchanged |
| ResumeBuilder.AddEntry | src/pages/ResumeBuilder.js:97-111 | the section gains one blank entry at the end, and nothing else changes, property names and their order included |
| ResumeBuilder.RemoveEntry | src/pages/ResumeBuilder.js:131-136 | local removal changes only the section, which stays an array, and keeps the property names and their order |
| ResumeBuilder.RemoveEntryIsSplice | src/pages/ResumeBuilder.js:157-162 | local removal drops exactly the entry at `index` and keeps the others in order, as the server's splice does |
| ResumeBuilder.RemoveUndoesAdd | src/pages/ResumeBuilder.js:97-136 | adding an entry and removing the last one gives the list back |
| ResumeBuilder.EntryFor | src/pages/ResumeBuilder.js:171-188 | each property gives one entry under its own name, and only an image file is sent as a file |
| ResumeBuilder.EntryForCases | src/pages/ResumeBuilder.js:171-188 | lists are sent as JSON, a `null` image as the text `null`, falsy scalars as the empty text, and strings as themselves |
| ResumeBuilder.FormGet | src/pages/ResumeBuilder.js:175 | `formData.get` finds nothing for a name no entry has |
| ResumeBuilder.BuildFormData | src/pages/ResumeBuilder.js:169-189 | the loop appends exactly one entry per property, in order, each the entry for that property; the merge branch is unreachable because property names are distinct |
| ResumeBuilder.ServerReceivesEachKeyOnce | src/pages/ResumeBuilder.js:211-230 | the server receives each property of the form as at most one text field (never an array, on which `trim` would throw), a file as no text field, and nothing for a name the form lacks |

## Left out

- I/O and services are parameters, as described above: the network, MongoDB,
  bcrypt, the file system, multer's file naming, `localStorage`, `alert`,
  `navigate`, and the `FileReader` preview with `imageUrl`.
- The server's resume GET handler (server.js:140-151) returns the stored
  document as it is. It appears only as the `data` argument of the load
  merge.
- Server.UpdateResume: `fs.existsSync` (server.js:188, 222) is not modelled.
  The stale image path is reported for deletion even when no such file
  exists.
- Server.DeleteResume: `fs.existsSync` (server.js:320) is not modelled
  either. The image path is reported for deletion even when no such file
  exists.
- Resume.MergeResume: Mongoose's casting of a parsed list to sub-documents is
  folded into the parser argument. Text that parses but does not cast is
  treated as failing at the parse step. The real handler fails only at the
  write, after it has already deleted the old image.
- Of the `catch` blocks that answer 500, only the ones a failing write
  reaches are modelled (the `saved` parameter of signup, save, submit,
  add-education and the three delete handlers), together with the throws of
  `JSON.parse` and `trim` in save and submit. A lookup that throws is not
  modelled, and login, which does not write, never answers 500.
- ResumeBuilder.RemoveEntry: the branch that deletes through the server for
  an entry with a truthy `id` is left out. Its effect after the request
  succeeds is the same positional filter, and the request itself is I/O.
- ResumeBuilder.LoadMerge: assumes a truthy answer is an object, as the GET
  handler sends. Non-object answers are not modelled.
- The user-id guards of the page handlers are not modelled: `if (!userId)
  return`. Neither is the component's rendering.
- Templates.Template1Html and Templates.Template2Html: the indentation and line
  breaks of the template literals are not modelled. Of each `<style>` block
  only the rule that carries the background colour is kept.
- The templates are defined only for data whose lists can be read without
  a throw. A `TypeError` that the page never catches is not modelled.
- Strings are sequences of Unicode scalar values. A JavaScript string that
  holds an unpaired surrogate is not modelled; `length` counts a character
  above U+FFFF as its two code units.
- Request body fields of signup, login and add-education (`degree`,
  `institution`, `year`) are modelled as strings, absent or
  present. A JSON body can carry other types (a numeric `password` has no
  `length`, and `undefined < 6` is false, and the schema would cast a
  numeric `year` to its string form); the pages always send strings.
- Numbers are modelled as integers. Fractional numbers and their `String`
  form are not modelled.
- `JSON.stringify` is written out only for what the form holds: strings,
  integers, booleans, `null`, arrays, plain objects and files. The inverse
  direction is proved only for strings.
- The client-side `JSON.parse` in the unreachable merge branch of the
  `FormData` loop is not modelled. `Set` de-duplication is not modelled
  either. That the branch is unreachable is proved instead.
