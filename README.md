# Smart Clinic: the behaviour behind the widgets

A Dafny model of the logic inside the Smart Clinic Tkinter scripts. The windows, frames and canvas drawing are left aside. What remains is:

- **HexColor**: the hover colour of the rounded canvas buttons. Every channel of a `#rrggbb` colour is lowered by 25 (`darken`/`dk` in `day3_dialogs.py`) or by 20 (`RoundedButton._darken`, and `darken` in `day2_search_and_buttons.py`), with a floor of zero. The result is written in lower case.
- **Buttons**: the rounded button as a two-state machine. The pointer entering draws the darkened colour, leaving draws the base colour, and a click runs the command.
- **Text**: the three string operations the dialogs apply to entry texts. These are Python's `str.strip()`, `str.isdigit()` and `int()`.
- **DateFormat**: the appointment date check, `datetime.strptime(date, '%Y-%m-%d')`. It matches four digits, then the regular-expression alternatives Python uses for `%m` and `%d`, then applies the calendar check `datetime` makes. Also modelled is the `strftime('%Y-%m-%d')` text the dialog pre-fills.
- **Forms**: the "Add New Patient" and "New Appointment" dialogs. Each `save()` checks the fields in a fixed order, and the first failure sets the error label and the focus. Success hands a record to `on_save` and closes the dialog.
- **Search**: the search box placeholder. Focus-in clears the hint and focus-out restores it in an empty box. The query never reads as the hint, and the frame is highlighted while focused. Both the day-2 demo and the final `TopBar` are modelled.
- **Navigation**: the sidebar of the final app. It keeps one active key, a click moves it, and hover restyles only inactive items. A refresh restyles every item. `App.on_nav` shows the page title for a key.

The only age check is `age.isdigit()`, so the age `"0"` passes and is saved as `0` (`Forms.PatientSaved`).

## Model

| member | source | states |
|---|---|---|
| HexColor.Darken | day3_dialogs.py:53-57 | for a `#` plus six hex digits (either case), the darkened colour is again `#` plus six lower-case hex digits |
| HexColor.FormatByte | day2_search_and_buttons.py:149 | `{:02x}` of a byte is exactly two lower-case hex digits |
| HexColor.Channel | smartclinic.py:187-189 | `int(h[1+2k:3+2k], 16)` of a well-formed colour is a byte |
| HexColor.ParseFormatByte | day2_search_and_buttons.py:146-149 | reading back a formatted byte with base 16 gives the byte |
| HexColor.FormatParseByte | day2_search_and_buttons.py:146-149 | formatting the value of two lower-case hex digits gives the same two digits |
| HexColor.ChannelsOfFormat | smartclinic.py:186-190 | the three channels of a formatted colour are the three bytes it was formatted from |
| HexColor.DarkenChannels | smartclinic.py:186-190 | each channel of the result is `max(0, channel - amount)` of the input channel |
| HexColor.DarkenNeverBrightens | day2_search_and_buttons.py:145-149 | no channel rises, a channel at or below the amount becomes 0, and a positive channel strictly falls |
| HexColor.DarkenTwice | day3_dialogs.py:372-373 | darkening by `a` then by `b` is darkening by `a + b` |
| HexColor.HoverVisible | smartclinic.py:163-172 | a colour with some non-zero channel hovers in a colour different from its base colour |
| HexColor.DarkenZeroKeepsCanonical | day2_search_and_buttons.py:149 | a lower-case colour darkened by 0 is unchanged, because the formatter writes it back digit for digit |
| HexColor.DialogHoverColours | day3_dialogs.py:53-61 | the accent `#4f7ef8` hovers as `#3665df` with 25 and `#3b6ae4` with 20; the green `#2ec87a` hovers as `#15af61` and `#1ab466` |
| Buttons.HoverButton.constructor | smartclinic.py:159-169 | the button starts drawn in its base colour, and its hover colour is the darkened base colour |
| Buttons.HoverButton.Enter | smartclinic.py:171 | the pointer entering draws the darkened colour |
| Buttons.HoverButton.Leave | smartclinic.py:172 | the pointer leaving draws exactly the base colour |
| Buttons.HoverButton.Click | smartclinic.py:170 | a click runs the command once if there is one, and otherwise does nothing |
| Buttons.EnterThenLeave | day2_search_and_buttons.py:152-154 | after enter then leave, the button is drawn in its base colour again and the command has not run |
| Text.TrimStartSpec | day3_dialogs.py:148 | `lstrip` keeps a suffix, drops only whitespace, and leaves no leading whitespace |
| Text.TrimEndSpec | day3_dialogs.py:148 | `rstrip` keeps a prefix, drops only whitespace, and leaves no trailing whitespace |
| Text.StripIsTrimmedSlice | day3_dialogs.py:148-151 | `strip()` returns a slice of the input, with whitespace cut off on both sides, that neither starts nor ends with whitespace |
| Text.TrimStartOfSpaces | day3_dialogs.py:155 | an all-whitespace text strips to nothing from the left |
| Text.StripEmptyIffAllSpace | day3_dialogs.py:155 | a stripped entry is empty exactly when the entry held only whitespace |
| Text.StripIdempotent | day3_dialogs.py:148-151 | stripping a stripped text changes nothing |
| Text.DecimalValue | day3_dialogs.py:167 | `int()` of `n` digits is below `10^n` |
| Text.Decimal | day3_dialogs.py:167 | `str(n)` is all digits, with no leading zero |
| Text.DecimalRoundTrip | day3_dialogs.py:159-167 | `int(str(n)) == n` |
| Text.LeadingZeroIgnored | day3_dialogs.py:159-167 | a leading `0` does not change the value `int()` reads |
| DateFormat.DaysInMonth | day3_dialogs.py:270 | a month has 28 to 31 days |
| DateFormat.MonthField | day3_dialogs.py:270 | the `%m` group reads a month from 1 to 12 |
| DateFormat.DayField | day3_dialogs.py:270 | the `%d` group reads a day from 1 to 31 |
| DateFormat.MonthFieldIff | day3_dialogs.py:270 | the `%m` group reads `m` exactly from `m` as two digits, or as one digit when `m < 10` |
| DateFormat.DayFieldIff | day3_dialogs.py:270 | the `%d` group reads `d` exactly from its two-digit form, or, when `d < 10`, from one digit with or without a leading space |
| DateFormat.ParseDate | day3_dialogs.py:269-274 | an accepted text reads as a real calendar date, is 8 to 10 characters long, and has `-` at position 4 |
| DateFormat.YearTextValue | day3_dialogs.py:270 | a four-digit year text is the zero-padded form of the number it reads as |
| DateFormat.Pad4Value | day3_dialogs.py:230 | the zero-padded year reads back as the year |
| DateFormat.ParseDateIff | day3_dialogs.py:269-274 | the check reads `d` from `s` exactly when `d` is a valid date and `s` is one of its renderings (both directions) |
| DateFormat.IsoFormat | day3_dialogs.py:230 | `strftime('%Y-%m-%d')` of a date is one of its renderings |
| DateFormat.IsoFormatRoundTrip | day3_dialogs.py:230 | the pre-filled date text passes the check and reads back as the same date |
| DateFormat.RejectedExamples | day3_dialogs.py:269-274 | slashes, 30 February, 29 February 2023, year 0, month 13 and a two-digit year are all refused |
| DateFormat.AcceptedExamples | day3_dialogs.py:269-274 | 29 February 2024, `2024-1-5` and `2024-01- 5` are all accepted |
| Forms.ValidatePatient | day3_dialogs.py:146-171 | a saved patient has a non-empty name and the gender exactly as chosen |
| Forms.ValidateAppointment | day3_dialogs.py:252-281 | a saved appointment has a non-empty patient, a non-empty doctor and a date the check accepts |
| Forms.PatientNameChecked | day3_dialogs.py:155-158 | the name error is reported exactly when the name entry holds only whitespace, whatever the age says |
| Forms.PatientAgeChecked | day3_dialogs.py:159-162 | the age error is reported exactly when a name is present and the stripped age is not all digits |
| Forms.PatientSaved | day3_dialogs.py:146-171 | a patient is saved exactly when the name is not blank and the stripped age is all digits; the record holds the stripped texts, `int(age)` and the chosen gender |
| Forms.AppointmentCheckOrder | day3_dialogs.py:259-274 | patient, then doctor, then date: the first failing check names the error, and the save succeeds exactly when all three pass |
| Forms.AppointmentSaved | day3_dialogs.py:276-282 | the record holds the stripped patient, doctor, date and time, and the chosen status |
| Forms.TimeNeverChecked | day3_dialogs.py:252-282 | the time entry never changes the outcome, only the time in the record |
| Forms.FreshAppointmentSaves | day3_dialogs.py:229-240 | with a patient and a doctor typed in, a fresh form saves with today's date, `09:00` and `Scheduled` |
| Forms.JaneDoeSaved | day3_dialogs.py:146-171 | name `Jane Doe` and age `30` save as the record `("Jane Doe", 30, "", "", "Select")` |
| Forms.PatientDialog.constructor | day3_dialogs.py:124-143 | the dialog opens with empty entries, gender `Select` and an empty error label |
| Forms.PatientDialog.Edit | day3_dialogs.py:124-127 | typing replaces the text of the chosen entry only and puts the focus on that entry; gender, error label and saved records are unchanged |
| Forms.PatientDialog.ChooseGender | day3_dialogs.py:134-135 | the gender becomes one of `Male`, `Female`, `Other` |
| Forms.PatientDialog.Save | day3_dialogs.py:146-179 | on failure: the dialog stays open, the label shows the warning and message, and the focus moves to the field; on success: the dialog closes and `on_save`, if given, receives the record once |
| Forms.PatientDialog.Cancel | day3_dialogs.py:188 | Cancel closes the dialog without saving |
| Forms.AppointmentDialog.constructor | day3_dialogs.py:225-240 | the dialog opens with today's date, time `09:00` and status `Scheduled` |
| Forms.AppointmentDialog.Edit | day3_dialogs.py:225-233 | typing replaces the text of the chosen entry only and puts the focus on that entry; status, error label and saved records are unchanged |
| Forms.AppointmentDialog.ChooseStatus | day3_dialogs.py:240-241 | the status becomes one of `Scheduled`, `Completed`, `Cancelled` |
| Forms.AppointmentDialog.Save | day3_dialogs.py:252-290 | on failure: the label shows the message of the first failing check and the focus moves to that entry; on success: the dialog closes and the record is delivered once |
| Forms.AppointmentDialog.Cancel | day3_dialogs.py:299 | Cancel closes the dialog without saving |
| Forms.RetryAfterMissingName | day3_dialogs.py:146-179 | after a save refused for a missing name, typing the name and saving again delivers exactly one record and closes the dialog |
| Search.AfterFocusIn | day2_search_and_buttons.py:93-97 | focus-in clears the hint and leaves any other text untouched |
| Search.AfterFocusOut | day2_search_and_buttons.py:101-105 | focus-out puts the hint into an empty box and leaves any other text untouched |
| Search.QueryOf | smartclinic.py:258-260 | the query is never the hint; it is empty exactly for an empty box or the hint, and otherwise it is the text |
| Search.HandlersIdempotent | smartclinic.py:220-234 | running either focus handler twice is the same as running it once, text and colour alike, so the doubled bindings are harmless |
| Search.FocusCycle | day2_search_and_buttons.py:93-107 | focus-in then focus-out gives back a typed query unchanged, and turns an empty box back into the hint |
| Search.FocusKeepsQuery | smartclinic.py:248-260 | focus changes never change the query the box reports |
| Search.TopBarSearch.constructor | smartclinic.py:202-217 | the box starts with the grey hint, a thin border-coloured frame and no query |
| Search.TopBarSearch.FocusIn | smartclinic.py:220-229 | focus-in clears the hint, keeps the query, and highlights the frame in the accent colour at thickness 2 |
| Search.TopBarSearch.FocusOut | smartclinic.py:221-234 | focus-out restores the hint in an empty box, keeps the query, and sets the frame back to the border colour at thickness 1 |
| Search.TopBarSearch.SearchFocusIn | smartclinic.py:248-251 | `_search_focus_in` clears only the hint, switching to the text colour |
| Search.TopBarSearch.SearchFocusOut | smartclinic.py:253-256 | `_search_focus_out` fills only an empty box with the hint, in grey |
| Search.TopBarSearch.Edit | smartclinic.py:210-217 | typing replaces the entry text and nothing else |
| Search.TopBarSearch.Query | smartclinic.py:258-260 | the reported query is never the hint, and is empty exactly for an empty box or the hint |
| Search.TopBarSearch.ClearSearch | smartclinic.py:262-264 | after a clear the box shows the hint in grey with no query, and the frame highlight is unchanged |
| Search.DemoSearch.constructor | day2_search_and_buttons.py:79-91 | the demo box starts with the grey hint, a thin frame and the label's greeting |
| Search.DemoSearch.FocusIn | day2_search_and_buttons.py:93-99 | `on_focus_in` clears the hint and highlights the frame |
| Search.DemoSearch.FocusOut | day2_search_and_buttons.py:101-107 | `on_focus_out` restores the hint in an empty box and sets the frame back to thin |
| Search.DemoSearch.Edit | day2_search_and_buttons.py:79-87 | typing replaces the entry text |
| Search.DemoSearch.OnSearch | day2_search_and_buttons.py:109-113 | `<Return>` shows `Searching for: "<query>"` unless the box shows the hint, in which case the label keeps its text |
| Search.SearchingFor | day2_search_and_buttons.py:113 | the label is the fixed prefix, the query verbatim and a closing quote |
| Search.SearchingForInjective | day2_search_and_buttons.py:113 | two queries give the same label exactly when they are the same query |
| Navigation.ButtonKeys | smartclinic.py:67-72 | `nav_buttons` never holds the divider and has at most one key per item; its exact contents are stated by `Navigation.ButtonKeysExact` |
| Navigation.ButtonKeysExact | smartclinic.py:67-72 | a key has a nav button exactly when it is some item's key and not the divider |
| Navigation.ButtonKeysAppend | smartclinic.py:67-72 | one more item adds its key at the end, unless it is the divider |
| Navigation.ButtonKeysDistinct | smartclinic.py:67-72 | when the items have distinct keys, `nav_buttons` holds each key once |
| Navigation.AppButtonKeys | smartclinic.py:28-35 | the app's nav buttons are dashboard, patients, appointments, staff and settings, in that order |
| Navigation.StyleFor | smartclinic.py:139-150 | an item gets the active style exactly when its key is the active key; any other item gets the idle style (sidebar background, `#a8b8d0` text, sidebar-coloured bar) |
| Navigation.RefreshMarksExactlyActive | smartclinic.py:139-150 | after a refresh, the active item and only it is drawn as active, and every other item has the idle style |
| Navigation.BuiltStateHidesSelection | smartclinic.py:40-46 | as built, the dashboard item is drawn idle although it is active, so the built sidebar does not show its selection |
| Navigation.PageTitle | smartclinic.py:309-314 | the title is the key's label, or the key itself when it has no label |
| Navigation.PageTitlesMatchLabels | smartclinic.py:309-314 | for every nav item, the page title `on_nav` shows is the label the sidebar gives that item |
| Navigation.Sidebar.constructor | smartclinic.py:40-46 | the sidebar holds the keys of `NAV_ITEMS` minus the divider, with `dashboard` active and drawn as active (corrected) |
| Navigation.Sidebar.BuildKeys | smartclinic.py:67-72 | the build loop skips the divider and keeps every other key, in order |
| Navigation.Sidebar.RefreshStyles | smartclinic.py:139-150 | every item is restyled from `active`, and the selection is shown |
| Navigation.Sidebar.OnClick | smartclinic.py:120-123 | a click makes the key active, refreshes every item, and hands the key to `on_nav` |
| Navigation.Sidebar.UpdateActive | smartclinic.py:152-154 | `update_active` is a click without the `on_nav` call |
| Navigation.Sidebar.OnEnter | smartclinic.py:125-130 | hover turns an inactive item to the hover colours and leaves the active item alone |
| Navigation.Sidebar.OnLeave | smartclinic.py:132-137 | leaving turns an inactive item back to idle and leaves the active item alone |
| Navigation.App.constructor | smartclinic.py:276-300 | the app opens on the `Dashboard` page; its sidebar holds the keys of `NAV_ITEMS` minus the divider, with `dashboard` active and every item restyled from it, so the dashboard item is drawn active (corrected, as for `Navigation.Sidebar.constructor`) |
| Navigation.App.NavClick | smartclinic.py:309-314 | after a click, the clicked key is active, every item is restyled from it, the key is passed to `on_nav` once, and the page shown is its title |

## Left out

- Widget layout, fonts, window geometry, canvas shapes (arcs, rectangles, centred label), icons and the section labels `MAIN`/`ADMIN` are not modelled. Only the colours an item or a button is drawn in are.
- `messagebox.showinfo`, `grab_set`, `transient`, `mainloop` and `print` are left out. `App.on_search` only prints the query; the model stops at `get_search_query`.
- `day1_window_and_frames.py` and `main.py` only lay out widgets and are not part of this model.
- The clock: `datetime.today()` becomes the constructor parameter `today` of `Forms.AppointmentDialog`.
- Forms.AppointmentDialog.constructor: requires a year of at least 1000, because `strftime('%Y')` pads smaller years differently on different platforms.
- Text.DecimalValue: reads only `0`-`9`. Python's `int()` also reads other Unicode decimal digits, such as `٣` as 3.
- Forms.PatientAgeChecked, Forms.PatientSaved: the if-and-only-if treats every non-ASCII character as not a digit, so it promises the age error for any such age. The source does otherwise at day3_dialogs.py:159,167. An age of decimal digits from another script, such as `٣`, passes `isdigit()` and saves as 3. An age such as `²` passes `isdigit()`, but `int()` then raises `ValueError` out of `save()`: no message, no record, and the dialog stays open. Both cases are outside the model.
- DateFormat.ParseDate: only ASCII digits are accepted; the Unicode digits that Python's `\d` also matches are not modelled. `strptime`'s other error paths and its internal cache are left out.
- HexColor.Darken: a colour that is not `#` plus six hex digits is a precondition. Python would raise or misread it, but every caller passes a fixed palette colour.
- Navigation.ButtonKeys: a key repeated in the items is kept twice, where the `nav_buttons` dict would keep it once. `NAV_ITEMS` has distinct keys (`Navigation.ButtonKeysDistinct`, `Navigation.AppButtonKeys`).
- Buttons.HoverButton.Click: the command's own effect is not modelled, only how many times it ran.
- The time entry of the appointment dialog is never validated by the source, so the model does not validate it either (`Forms.TimeNeverChecked`).
- Tk delivers `<Enter>`/`<Leave>` once per child widget of a nav item. The model treats each as one event on the item, since every repeat sets the same colours.

## Findings

| source | as written | input that shows it | evidently intended | confidence | as-written member | corrected member |
|---|---|---|---|---|---|---|
| smartclinic.py:40-46 | `Sidebar.__init__` sets `active = 'dashboard'`, but neither it nor `_build` calls `_refresh_styles`. Every item, the dashboard included, is built in the idle colours. | start the app: the dashboard item has the idle background and no accent bar until the first click | the active item is highlighted from the start, as `_refresh_styles` (smartclinic.py:139-150) would draw it | high (not executed) | Navigation.BuiltStateHidesSelection | Navigation.Sidebar.constructor |
