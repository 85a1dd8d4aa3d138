# fox-crm form widget and dashboard core, modelled in Dafny

This project models the logic at the centre of the fox-crm web front end:

- **Multi-step forms.** A form has steps, each step has fields (text, email,
  number, textarea, tel, url, date). Each field may be required.
  - Both runtimes share one validation rule per field.
  - The React widget (`src/components/FormWidget.jsx`) runs a form inside the site.
  - The standalone script (`src/pages/FormPreview.jsx`) runs it when embedded in a foreign page: it is generated by `generateEmbedCode`, and the `MultiStepForm` class carries it.
  - The model proves that the two runtimes record the same errors for distinct field ids. It also proves where they differ: the widget always advances on Next, and the script advances only when the step passes.
- **Form builder** (`src/pages/FormBuilder.jsx`): the save checks, the payload sent to the server, and every editing action on steps, fields and styles.
- **Form storage in `localStorage`**, in both copies (`src/utils/storage.js`, `utils/storage.js`): upsert by id, look-up, deletion.
- **Dashboard:**
  - gallery reordering by drag and drop;
  - the menu-item dialog and its tag checkboxes;
  - the "manage menu items" dialog of the menus page.
- **Public pages:**
  - the menu page: its category buttons and its filter;
  - the 24-to-12-hour time display.

The modules and files:

- `Forms` and `Wrappers` (`forms.dfy`): entities, validation, submission wiring.
- `Widget` (`widget.dfy`): the React widget, as a class whose fields are its state hooks.
- `EmbedCode` and `EmbedRuntime` (`embed.dfy`): the embed code text and the embedded `MultiStepForm` class.
- `Parity` (`parity.dfy`): the two runtimes side by side.
- `Builder` (`builder.dfy`), `FormList`, `LocalFormStore` and `WindowFormStore` (`storage.dfy`).
- `Seqs` (`seqs.dfy`): the element-wise `map` shared by the pages.
- `TimeConverter` (`time.dfy`), `Gallery` (`gallery.dfy`), `MenuItems` (`menu_items.dfy`), `Menus` (`menus.dfy`), `MenuPage` (`menu_page.dfy`).

Choices the model makes:

- **Runtime classes mutate in place.** The runtime objects change state, so they are classes with `modifies` frames. Their methods are specified by the pure functions `Failures`, `Messages`, `ControlsFor`, `Upsert` and `RemoveId`. The functions' properties are proved as lemmas.
- **React handlers are pure.** A React state update replaces the value, so those handlers are functions from the old state to the new one.
- **Parameters stand in for what is not modelled:**
  - JavaScript's coercing `isNaN` on a string;
  - `JSON.stringify` of the configuration;
  - the long fixed text of the runtime script and its style sheet;
  - `Number.prototype.toString` on a price.
- **Where the design description and the code disagree, the model follows the code.** The description says that opening the widget starts it afresh. In the code, the open button only sets `isOpen` (FormWidget.jsx:124), and the close button only clears it (FormWidget.jsx:172). So reopening resumes at the same step with the same values.

## Model

| member | source | states |
|---|---|---|
| Forms.ValidateField | src/components/FormWidget.jsx:9-20 | the message is one of the empty string, the required, the email and the number message |
| Forms.RequiredRule | src/components/FormWidget.jsx:10-12 | the required message appears exactly for a required field with an empty value, whatever its type |
| Forms.EmptyOptionalPasses | src/components/FormWidget.jsx:13-18 | an empty optional field is valid: type checks only run on non-empty values |
| Forms.EmailRule | src/components/FormWidget.jsx:13-15 | the email message appears exactly for a non-empty email value outside the language of `/^[^\s@]+@[^\s@]+\.[^\s@]+$/` |
| Forms.NumberRule | src/components/FormWidget.jsx:16-18 | the number message appears exactly for a non-empty number value that `isNaN` rejects |
| Forms.OtherKindsOnlyRequired | src/components/FormWidget.jsx:9-20 | text, textarea, tel, url and date fields only ever get the required message |
| Forms.EmailCheckIsRegex | src/pages/FormPreview.jsx:489 | the executable check (a single '@' with a '.' after it) accepts exactly the strings the regular expression matches |
| Forms.EmailAccepted | src/components/FormWidget.jsx:13 | "a@b.co" passes the email rule |
| Forms.EmailRejected | src/components/FormWidget.jsx:13 | "a@b", "a", "@b.co" and "a@b." fail the email rule |
| Forms.FailuresExactAt | src/components/FormWidget.jsx:27-32 | the widget's error map has a key exactly when some field with that id fails, and its entry is never empty |
| Forms.FailuresExact | src/components/FormWidget.jsx:27-32 | the same for all ids at once |
| Forms.FailuresEmptyIffAllPass | src/components/FormWidget.jsx:50-60 | the error map is empty exactly when every field of the step passes |
| Forms.MessagesKeys | src/pages/FormPreview.jsx:481-501 | the script's message map has exactly the step's field ids as keys |
| Forms.MessageOfField | src/pages/FormPreview.jsx:497-500 | with distinct ids, each field's entry is its own verdict |
| Forms.FailureOfField | src/components/FormWidget.jsx:28-31 | with distinct ids, a failing field's entry in the widget's map is its own message |
| Forms.RuntimesRecordSameErrors | src/components/FormWidget.jsx:27-32 | with distinct ids, the widget's error map is the script's message map with the empty entries dropped |
| Forms.DuplicateIdsDisagree | src/pages/FormPreview.jsx:481-501 | with a repeated id, the two maps differ: a later passing field clears the script's message but not the widget's error |
| Forms.FormAttributes | src/components/FormWidget.jsx:203-211 | the rendered form carries `data-netlify` exactly when Netlify is on, and `action` exactly when a target is set |
| Forms.DelegatesIffWired | src/pages/FormPreview.jsx:338-349 | a submit is handed to the browser exactly when the form is wired to Netlify or to an action URL |
| Widget.CollectErrors | src/components/FormWidget.jsx:46-58 | the loop builds exactly `Failures` of the step, and its flag is true exactly when every field passes, which is exactly when the map is empty |
| Widget.FormWidget.constructor | src/components/FormWidget.jsx:3-7 | starts closed on step 0 with no values and no errors |
| Widget.FormWidget.Open | src/components/FormWidget.jsx:124 | opens; step, values and errors stay as they were |
| Widget.FormWidget.Close | src/components/FormWidget.jsx:172 | closes; nothing is reset |
| Widget.FormWidget.HandleNext | src/components/FormWidget.jsx:22-36 | the errors become the step's failures, and the step advances by one even when some field fails |
| Widget.FormWidget.HandlePrevious | src/components/FormWidget.jsx:38-40 | the step goes back by one |
| Widget.FormWidget.HandleSubmit | src/components/FormWidget.jsx:42-77 | a failing step is rejected and keeps its state with the new errors; a wired form goes to the browser; otherwise the values are accepted and the widget resets to closed, step 0, empty |
| Widget.FormWidget.HandleInputChange | src/components/FormWidget.jsx:79-91 | stores the value and blanks that field's error if one was shown; nothing else changes |
| EmbedCode.ConfigOf | src/pages/FormPreview.jsx:73-89 | the embedded configuration keeps id, title, Netlify flag, action, styles and each step's id and title, and keeps only id, type, label and required of each field |
| EmbedCode.ConfigOfRecordOf | src/pages/FormPreview.jsx:73-89 | projecting the record of a configuration gives the configuration back |
| EmbedCode.RecordOfConfigOf | src/pages/FormPreview.jsx:73-89 | a record survives the projection exactly when it has no other keys |
| EmbedCode.GenerateEmbedCode | src/pages/FormPreview.jsx:72-561 | the preview code is exactly `const formConfig = `, then the serialised configuration, then the runtime; the full code is the banner, the container `div` and `<script>`, then exactly the preview code of the same form, then `</script>` |
| EmbedCode.DependsOnlyOnConfig | src/pages/FormPreview.jsx:73-94 | two forms with the same projection get the same code |
| EmbedRuntime.ControlsFor | src/pages/FormPreview.jsx:453-474 | progress up to the step, only that step visible, Previous past the first step, Next before the last, Submit on the last |
| EmbedRuntime.NextOrSubmit | src/pages/FormPreview.jsx:471-473 | exactly one of Next and Submit is shown |
| EmbedRuntime.CreatedControlsWrongForOneStep | src/pages/FormPreview.jsx:406-426 | the controls as built equal those of step 0 exactly when the form does not have one step; for one step, Next is shown and Submit hidden |
| EmbedRuntime.ButtonCaptions | src/pages/FormPreview.jsx:292 | each caption is the configured text, or its default when that is empty or missing, and never empty |
| EmbedRuntime.MultiStepForm.constructor | src/pages/FormPreview.jsx:279-299 | step 0, no values, overlay hidden, no error shown, and the controls of step 0 (corrected; see Findings) |
| EmbedRuntime.MultiStepForm.UpdateUI | src/pages/FormPreview.jsx:453-474 | the shown controls become `ControlsFor` the current step |
| EmbedRuntime.MultiStepForm.ValidateStep | src/pages/FormPreview.jsx:476-504 | the result is true exactly when every field passes; every field's error text is its message, and its highlight is on exactly when the message is not empty |
| EmbedRuntime.ShowErrors | src/pages/FormPreview.jsx:481-501 | the loop's flag, texts and highlights equal `AllPass`, `Messages` merged over the old texts, and `ShownAfter` |
| EmbedRuntime.MultiStepForm.HandleInputChange | src/pages/FormPreview.jsx:506-512 | stores the value and hides that field's error; nothing else changes |
| EmbedRuntime.MultiStepForm.NextStep | src/pages/FormPreview.jsx:514-519 | the step advances exactly when the step passes, with the controls following; the error texts are always refreshed, and each field's error is highlighted exactly when its new message is non-empty |
| EmbedRuntime.MultiStepForm.PreviousStep | src/pages/FormPreview.jsx:521-526 | goes back one step when past the first, otherwise nothing changes |
| EmbedRuntime.MultiStepForm.OpenModal | src/pages/FormPreview.jsx:435-438 | shows the overlay and nothing else |
| EmbedRuntime.MultiStepForm.ResetForm | src/pages/FormPreview.jsx:446-451 | back to step 0, no values, controls of step 0 |
| EmbedRuntime.MultiStepForm.CloseModal | src/pages/FormPreview.jsx:440-444 | hides the overlay and resets |
| EmbedRuntime.MultiStepForm.HandleSubmit | src/pages/FormPreview.jsx:528-545 | a failing step is rejected with its messages shown and the failing fields highlighted; a wired form goes to the browser; otherwise the values are accepted and the form closes and resets |
| Parity.WidgetNext | src/components/FormWidget.jsx:22-36 | the widget moves to the second step whatever was typed |
| Parity.ScriptNext | src/pages/FormPreview.jsx:514-519 | the script moves to the second step only when the first step passes |
| Parity.NextOnBoth | src/components/FormWidget.jsx:26 | the two runtimes end on the same step after Next exactly when the first step passes |
| Parity.NextFromSameState | src/components/FormWidget.jsx:22-36 | from any widget and script on the same form, step and values, Next moves the widget on always and the script only when the step passes, so they stay on one step exactly when it passes; with distinct field ids the widget's errors are the script's non-empty messages |
| Parity.SameControls | src/components/FormWidget.jsx:263-283 | the widget renders the Previous, Next and Submit buttons and the progress bar that the script's `updateUI` shows for the same step |
| Builder.TrimStart | src/pages/FormBuilder.jsx:76 | removes exactly the leading JavaScript whitespace |
| Builder.TrimEnd | src/pages/FormBuilder.jsx:76 | removes exactly the trailing JavaScript whitespace |
| Builder.BlankIffAllSpace | src/pages/FormBuilder.jsx:76 | a text trims to empty exactly when all its characters are whitespace |
| Builder.HandleSave | src/pages/FormBuilder.jsx:75-111 | saving succeeds exactly when all four checks pass, then with the payload; each refusal happens exactly when its check is the first to fail |
| Builder.Payload | src/pages/FormBuilder.jsx:100-111 | the payload keeps the form and its steps, and keeps only id, type, label and required of each field |
| Builder.PayloadKeepsConfig | src/pages/FormBuilder.jsx:100-111 | the payload embeds the same configuration as the edited form |
| Builder.PayloadIdempotent | src/pages/FormBuilder.jsx:104-109 | stripping the fields twice is stripping them once |
| Builder.PayloadKeepsSaveable | src/pages/FormBuilder.jsx:75-111 | the payload of a saveable form is saveable |
| Builder.ResaveIsStable | src/pages/FormBuilder.jsx:75-111 | saving a saved payload again gives the same payload |
| Builder.SavedFormHasSteps | src/pages/FormBuilder.jsx:86-89 | a saved form's configuration has a field on every step |
| Builder.InitialForm | src/pages/FormBuilder.jsx:15-54 | one untitled empty step, no title, no Netlify, no action, the default styles |
| Builder.InitialFormNotSaveable | src/pages/FormBuilder.jsx:76-79 | the initial form is refused for its missing title |
| Builder.RemoveAt | src/pages/FormBuilder.jsx:144 | removes exactly the element at an index in range; otherwise nothing changes |
| Builder.AddStep | src/pages/FormBuilder.jsx:129-134 | appends an untitled step without fields; nothing else changes |
| Builder.DeleteStep | src/pages/FormBuilder.jsx:136-146 | refused exactly when the form has one step; otherwise removes the step at the index, if it is in range |
| Builder.AddField | src/pages/FormBuilder.jsx:148-164 | appends an optional text field without a label to the step at the index; other steps stay |
| Builder.DeleteField | src/pages/FormBuilder.jsx:166-175 | removes the field at the index from that step; other steps stay |
| Builder.ApplyUpdate | src/pages/FormBuilder.jsx:186 | each given property replaces the field's own; id and other keys stay |
| Builder.UpdateField | src/pages/FormBuilder.jsx:177-193 | only the addressed field of the addressed step changes, as `ApplyUpdate` says |
| Builder.UpdateStyle | src/pages/FormBuilder.jsx:195-206 | sets one property of one style category, creating it when missing; every other category and property stays |
| Builder.SetStepTitle | src/pages/FormBuilder.jsx:438-441 | only that step's title changes |
| Builder.EditKeepsAStep | src/pages/FormBuilder.jsx:136-140 | no editing action removes the last step |
| Builder.EditsKeepAStep | src/pages/FormBuilder.jsx:136-140 | no sequence of editing actions leaves a form without steps |
| Builder.InitialThenEditsKeepAStep | src/pages/FormBuilder.jsx:15-54 | every editing session from the initial form keeps at least one step |
| Builder.AddStepThenDelete | src/pages/FormBuilder.jsx:129-146 | deleting a step just added gives the form back |
| Builder.AddFieldThenDelete | src/pages/FormBuilder.jsx:148-175 | deleting a field just added gives the form back |
| FormList.FindIndex | src/utils/storage.js:3 | `findIndex`: -1 exactly when no form has the id, otherwise the first such position |
| FormList.Find | src/utils/storage.js:18-20 | none exactly when no form has the id, otherwise a stored form with that id |
| FormList.RemoveIdExact | src/utils/storage.js:22-25 | deletion keeps exactly the forms with other ids, and changes nothing when none has the id |
| FormList.UpsertReplacesFirst | src/utils/storage.js:5-6 | a form whose id is stored replaces the first form with that id |
| FormList.UpsertAppendsNew | src/utils/storage.js:7-9 | a form with a new id is appended |
| FormList.UpsertShape | src/utils/storage.js:1-12 | the two cases of a save together |
| FormList.FindAfterUpsert | src/utils/storage.js:1-20 | after a save, looking the id up gives the saved form |
| FormList.FindFirst | src/utils/storage.js:18-20 | the look-up gives the first form with the id |
| FormList.UpsertIdempotent | src/utils/storage.js:1-12 | saving the same form twice is saving it once |
| FormList.RemoveIdAppend | src/utils/storage.js:23 | deletion keeps the order of the remaining forms |
| FormList.FindAfterRemove | src/utils/storage.js:18-25 | after a deletion, the id is not found |
| FormList.SaveThenDelete | src/utils/storage.js:1-25 | saving then deleting a form leaves the list as deleting it alone would |
| LocalFormStore.FormStore.GetForms | src/utils/storage.js:14-16 | the stored list, or none when nothing is stored |
| LocalFormStore.FormStore.GetForm | src/utils/storage.js:18-20 | the look-up in the stored list |
| LocalFormStore.FormStore.SaveForm | src/utils/storage.js:1-12 | the stored list becomes the old one with the form upserted |
| LocalFormStore.FormStore.DeleteForm | src/utils/storage.js:22-25 | the stored list becomes the old one without that id |
| WindowFormStore.FormStore.LoadForms | utils/storage.js:1-5 | without a window, or with nothing stored, no forms; otherwise the stored list |
| WindowFormStore.FormStore.SaveForm | utils/storage.js:7-18 | the stored list becomes the loaded one with the form upserted |
| WindowFormStore.FormStore.DeleteForms | utils/storage.js:20-24 | the stored list becomes the loaded one without that id |
| TimeConverter.ConvertTo12Hour | src/components/TimeConverter.jsx:5-10 | the text is digits up to the first ':' that read as the 12-hour hour, then at least two digits that read as the minutes, a space and the period |
| TimeConverter.Period | src/components/TimeConverter.jsx:7 | two letters, "PM" exactly from noon on and "AM" exactly before |
| TimeConverter.LayoutReads | src/components/TimeConverter.jsx:9 | the template `h:mm period` keeps its hour digits, minute digits and period apart at the first ':' |
| TimeConverter.PaddedReadsBack | src/components/TimeConverter.jsx:9 | the padded minutes are at least two digits and read back as the minutes |
| TimeConverter.NatToString | src/components/TimeConverter.jsx:9 | decimal digits with no leading zero, one digit exactly below ten |
| TimeConverter.DecimalOfNatToString | src/components/TimeConverter.jsx:9 | reading the digits back gives the number |
| TimeConverter.PadStart2 | src/components/TimeConverter.jsx:9 | `padStart(2, '0')`: short texts get leading zeros up to two characters, longer ones stay |
| TimeConverter.Hours12 | src/components/TimeConverter.jsx:8 | `hours % 12 \|\| 12` lies in 1..12 and agrees with the hour modulo 12 |
| TimeConverter.MinutesPadded | src/components/TimeConverter.jsx:9 | minutes below 100 become exactly two digits that read back as the minutes |
| TimeConverter.ExampleMidnight | src/components/TimeConverter.jsx:5-10 | 0:05 is "12:05 AM" |
| TimeConverter.ExampleNoon | src/components/TimeConverter.jsx:5-10 | 12:00 is "12:00 PM" |
| TimeConverter.ExampleAfternoon | src/components/TimeConverter.jsx:5-10 | 13:30 is "1:30 PM" |
| TimeConverter.ExampleLastMinute | src/components/TimeConverter.jsx:5-10 | 23:59 is "11:59 PM" |
| TimeConverter.HourAndPeriodDetermineHour | src/components/TimeConverter.jsx:7-8 | the 12-hour hour and the period together determine the hour of the day |
| TimeConverter.To24OfHours12 | src/components/TimeConverter.jsx:7-8 | converting back from hour and period gives the original hour |
| TimeConverter.ParseParts | src/components/TimeConverter.jsx:9 | the displayed text splits back into its hour, minute and period |
| TimeConverter.ConvertRoundTrip | src/components/TimeConverter.jsx:5-10 | for every time of day, the displayed text reads back as that time |
| TimeConverter.ConvertInjective | src/components/TimeConverter.jsx:5-10 | two different times of day never display alike |
| Seqs.Map | src/pages/dashboard/Gallery.jsx:144 | `map` keeps the length and puts the image of element k at position k; the gallery's image ids and the menu item's tag ids (MenuItems.jsx:148) are this map |
| Gallery.Reorder | src/pages/dashboard/Gallery.jsx:128-130 | the two splices move the dragged image to the drop position, keep the length and permute the images |
| Gallery.MovedIsPermutation | src/pages/dashboard/Gallery.jsx:128-130 | moving keeps the multiset of images |
| Gallery.MovedLandsAtDestination | src/pages/dashboard/Gallery.jsx:130 | the dragged image ends at the drop index |
| Gallery.MovedKeepsOthersInOrder | src/pages/dashboard/Gallery.jsx:128-130 | the other images keep their relative order |
| Gallery.MoveInPlaceIsIdentity | src/pages/dashboard/Gallery.jsx:128-130 | dropping an image where it was changes nothing |
| Gallery.MoveBackRestores | src/pages/dashboard/Gallery.jsx:128-130 | dragging it back restores the order |
| Gallery.HandleDragEnd | src/pages/dashboard/Gallery.jsx:125-145 | a drop outside the list changes and sends nothing; otherwise the list is moved and its ids are sent |
| Gallery.OpenEditModal | src/pages/dashboard/Gallery.jsx:116-123 | the dialog shows the image's title and description, or empty text where one is missing |
| MenuItems.RemoveAll | src/pages/dashboard/MenuItems.jsx:182 | keeps exactly the other tags, and changes nothing when the tag is absent |
| MenuItems.TagToggle | src/pages/dashboard/MenuItems.jsx:178-185 | a selected tag is removed everywhere; another one is appended |
| MenuItems.ToggleFlipsMembership | src/pages/dashboard/MenuItems.jsx:178-185 | toggling flips the tag's selection and leaves every other tag's |
| MenuItems.ToggleTwiceRestores | src/pages/dashboard/MenuItems.jsx:178-185 | two toggles of an unselected tag give the list back |
| MenuItems.ToggleKeepsDistinct | src/pages/dashboard/MenuItems.jsx:178-185 | toggling never creates a duplicate |
| MenuItems.OpenModal | src/pages/dashboard/MenuItems.jsx:140-163 | editing fills the form from the item, with missing category and tags empty; creating starts empty; the dialog opens |
| MenuItems.CloseModal | src/pages/dashboard/MenuItems.jsx:165-176 | closed, nothing selected, form emptied |
| MenuItems.CloseThenCreateStartsEmpty | src/pages/dashboard/MenuItems.jsx:152-175 | closing leaves the form that creating starts from |
| Menus.SelectExact | src/pages/dashboard/Menus.jsx:332-336 | a list keeps exactly the items whose presence on the selected menu is the one asked for |
| Menus.Partition | src/pages/dashboard/Menus.jsx:332-371 | every item is in exactly one of "Available Items" and "Current Menu Items", and the lengths add up |
| Menus.SelectAppend | src/pages/dashboard/Menus.jsx:332-336 | both lists keep the order of all items |
| Menus.NoMenuSelected | src/pages/dashboard/Menus.jsx:333 | with no menu selected, every item is available and none is current |
| Menus.ReplaceMenu | src/pages/dashboard/Menus.jsx:80-82 | the menus with the selected id become the server's menu; the others stay |
| Menus.MenuItemChangedAsWritten | src/pages/dashboard/Menus.jsx:67-111 | as written, the list of menus is updated but the selected menu is not |
| Menus.AddedItemStaysAvailable | src/pages/dashboard/Menus.jsx:67-88 | as written, an item just added stays under "Available Items" and is missing from "Current Menu Items" |
| Menus.MenuItemChanged | src/pages/dashboard/Menus.jsx:67-111 | corrected: the selected menu is refreshed as well |
| Menus.ListsFollowUpdate | src/pages/dashboard/Menus.jsx:332-371 | after the corrected update, an item is current exactly when the server's menu lists it, and available exactly when it does not |
| Menus.OthersUnchanged | src/pages/dashboard/Menus.jsx:80-82 | other menus, and the number of menus, stay |
| Menus.OpenModal | src/pages/dashboard/Menus.jsx:174-193 | editing fills the form, with a missing image and item list empty; creating starts empty |
| Menus.CloseModal | src/pages/dashboard/Menus.jsx:195-204 | nothing selected, form emptied |
| MenuPage.FindMenu | src/pages/Menu.jsx:55-58 | the menu found has the active id; none exactly when no menu has it |
| MenuPage.FilteredItems | src/pages/Menu.jsx:61-64 | "all" keeps every item; otherwise exactly the items of that category |
| MenuPage.FilterAppend | src/pages/Menu.jsx:61-64 | the filter keeps the items' order |
| MenuPage.DedupExact | src/pages/Menu.jsx:18-25 | the insertion-ordered set keeps each element of its input exactly once |
| MenuPage.DedupPrefix | src/pages/Menu.jsx:18-25 | categories appear in the order of their first item |
| MenuPage.UniqueCategories | src/pages/Menu.jsx:14-26 | the loop gives the categories of the active menu's items, each once, in first-occurrence order; none without a menu |
| MenuPage.UniqueCategoriesExact | src/pages/Menu.jsx:14-26 | a category has a button exactly when some item of the active menu has it, and no category has two |
| MenuPage.Loaded | src/pages/Menu.jsx:37-41 | after loading, the first menu is active and every category shows |
| MenuPage.SelectMenu | src/pages/Menu.jsx:92-95 | a menu button activates that menu and resets the category filter |
| MenuPage.SelectMenuShowsAll | src/pages/Menu.jsx:92-95 | after switching menus, the page lists every item of the new menu |
| MenuPage.SelectCategory | src/pages/Menu.jsx:132 | a category button sets the filter and keeps the menu |
| MenuPage.CategoryButtonListsItems | src/pages/Menu.jsx:117-132 | a category button never leads to an empty list |
| MenuPage.NoMenuNoItems | src/pages/Menu.jsx:55-58 | with no matching menu, no items are listed |

## Left out

- Rendering: DOM construction, CSS, inline styles, the style sheet the script injects, labels and placeholders. The model keeps only the state that decides what is shown: the open flag, the step, the values, the errors, the visible buttons and the progress.
- Network requests, `fetch`, toasts, `alert`, `console` and navigation. Where a server answer matters (the updated menu, the reordered gallery), it is a parameter. The gallery's refetch after a failed reorder request is not modelled.
- JSON serialisation. The configuration's text is a parameter `serialize`. Storage treats `JSON.parse(JSON.stringify(x))` as `x` for the records it holds. A malformed stored text (`JSON.parse` throwing) is not modelled.
- The embedded script reads each field's value from its input element. The model reads `formData`: every change event writes the same value to both, and a reset clears both. The global `document.querySelector` look-ups are also not modelled: with two forms on one page they would find the first form's elements.
- JavaScript's `isNaN` on a string, and `Number.prototype.toString` on a price, are parameters.
- The builder's loading of an existing form and its uuid generation. New ids are parameters of `AddStep` and `AddField`.
- `form.reset()` on the rendered form, and the `try`/`catch` around submission: the model's `NativeSubmit` outcome stands for `e.target.submit()`, which it assumes does not throw.
- The `time24.split(':').map(Number)` parse of `TimeConverter.jsx`: the model starts from the two numbers. Its lemmas take hours below 24 and minutes below 60. Malformed text, which gives `NaN` there, is not modelled.
- `FormWidget.jsx` is not mounted by any page of the application. It is modelled as written all the same.
- WindowFormStore.FormStore.SaveForm: requires a window. Without one, the source's `localStorage` access throws, and that is not modelled.
- WindowFormStore.FormStore.DeleteForms: requires a window, for the same reason.
- Gallery.Reorder: requires both indices in range. The drag-and-drop library only reports such indices; `splice` clamping out-of-range indices is not modelled.
- Gallery.HandleDragEnd: requires the indices in range, for the same reason.
- Builder.SetStepTitle: requires the index in range, as the title input only exists for existing steps. The source writes the title into the step object that the old state shares. The model states the resulting state, not that aliasing.
- EmbedRuntime.ButtonCaptions: requires a "buttons" style category. Without one the source's `styles.buttons.openText` read (FormPreview.jsx:292, 409, 417, 424) throws a TypeError and the form never mounts; that failure is not modelled. The builder's default styles (`Builder.DefaultStyles`) include the category.
- EmbedRuntime.MultiStepForm.constructor: requires a "buttons" style category, for the same reason.
- Menus.OpenModal: returns the form and the selected menu. The separate `isModalOpen` flag is not part of the model.
- Menus.CloseModal: the `isModalOpen` flag is left out, as for `Menus.OpenModal`.
- `openMenuItemsModal` (Menus.jsx:114-117) only selects the menu and opens the dialog. The model's `Page` value is that state.
- The other files of the repository are not part of this model: authentication, articles, events, categories, tags, the rich-text editor, and the static pages.

## Findings

| source | as written | input that shows it | evidently intended | confidence | as-written member | corrected member |
|---|---|---|---|---|---|---|
| src/pages/FormPreview.jsx:279-284, 406-426 | the constructor builds the buttons with Next shown and Submit hidden, and never calls `updateUI`, so the first screen shows step 0's controls only by accident of those defaults | a form with one step: Next is shown, Submit is hidden, until the form is first closed | the controls of step 0: for one step Submit shown and Next hidden | not executed | EmbedRuntime.CreatedControlsWrongForOneStep | EmbedRuntime.MultiStepForm.constructor |
| src/pages/dashboard/Menus.jsx:80-82, 103-105 | after adding or removing an item, only the menu list is replaced; the selected menu the dialog's two lists are computed from stays as it was | menu "m" with no items, item "i" added: "i" is still under "Available Items" and absent from "Current Menu Items" | the dialog's lists follow the server's updated menu | not executed | Menus.AddedItemStaysAvailable | Menus.MenuItemChanged |
