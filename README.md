# Guest desk of a television station, modelled in Dafny

The application is a single Streamlit script (`Gestion_invite_EPTV.py`) used at a
television station's booking desk. It holds a login gate over a users file, and
a guest catalogue of nine-field records that can be added, listed, searched,
deleted and exported to a spreadsheet. This project takes the logic out of the
user interface. Persistence is "the state is the sequence": the users file and
the guest list are Dafny sequences, and saving then reloading gives the same
sequence back.

Modules, one per component of the script:

- `Wrappers`: `Option` (the guests file may be missing) and `Result` (label parsing may fail).
- `Text`: ASCII lower-casing (standing in for `str.lower`), substring containment,
  and Python's `str.split` with a separator, `str.join` and `str.rstrip` of one character.
- `Filtering`: the list comprehension `[x for x in s if keep(x)]`, which is also how
  a boolean mask selects table rows. Its lemmas fix the result completely: the kept
  elements, in their original order, each as often as in the input.
- `Users`: the credential store. `CheckCredentials` is the early-return scan.
  `UsernameInUse` is the `any(...)` test. `AddedUsers` is the users file after `add_user`.
- `Guests`: the calendar date and its ISO text (`str(date)`), the guest record,
  the record built from the entry form, search by name, and delete by the
  `(nom, date d'invitation)` pair.
- `Labels`: the delete selector's label `nom + " (" + date + ")"` and the
  parse that reads it back (split on `" ("`, unpack two names, `rstrip(")")`).
- `Navigation`: the two pages, the logged-in username, the requests a render
  pass carries, and the pure transition function `Next` with its invariant.
- `Session`: the class `App` holds the users file, the session's guest list, the page
  and the username. There is one method per branch of the main page, `Login` for the
  login page, and `Handle` for the routing at the bottom of the script.

The label parse is modelled as written. `LabelParsesIff` shows that it succeeds
exactly when neither the nom nor the date contains `" ("`. `LabelRoundTrip` shows
that it gives back the pair when the date also does not end in `")"`. Every date
the form stores is ISO text, and `IsoDateSafe` proves such text is always safe.
So for guests entered through the form, the only way to break the parse is a nom
containing `" ("`. That nom splits the label into three or more parts, and the
two-name unpack then raises (`UnpackFailsOnNom`). `Session.App.DeleteGuest` models
that raise as the outcome `UnpackFailed`, with the list unchanged. A date loaded
from the guests file that ends in `")"` parses without error but comes back
shortened (`LabelLosesDateParens`). The delete then targets a different pair.
The model keeps these behaviours and does not replace the key.

## Model

| member | source | states |
|---|---|---|
| Users.CheckCredentials | Gestion_invite_EPTV.py:25-30 | returns true iff some stored record has exactly this username and this password (both fields, case-sensitive) |
| Users.UsernameInUse | Gestion_invite_EPTV.py:34 | returns true iff some stored record has this username, whatever its password |
| Users.AddedUsers | Gestion_invite_EPTV.py:32-38 | the users file after add_user keeps every earlier record in place, grows by at most one record, and then holds the username |
| Users.AddedAll | Gestion_invite_EPTV.py:32-38 | after a series of add_user calls every earlier record is still in place and every requested username is stored |
| Users.AddUserRefusesTaken | Gestion_invite_EPTV.py:32-35 | a username already stored leaves the users file unchanged |
| Users.AddUserAppends | Gestion_invite_EPTV.py:36-38 | a fresh username is appended as the one new last record, earlier records unchanged, and the new pair then passes the credential check |
| Users.AddUserKeepsLogins | Gestion_invite_EPTV.py:32-38 | adding a user never makes an earlier username/password pair fail |
| Users.AddUserKeepsUnique | Gestion_invite_EPTV.py:32-38 | if usernames were unique before add_user, they are unique after |
| Users.UniqueCountsOnce | Gestion_invite_EPTV.py:32-38 | in a file with unique usernames a stored username occurs exactly once |
| Users.NotStoredCountsZero | Gestion_invite_EPTV.py:34 | a username no record carries occurs zero times |
| Users.AddUserTwice | Gestion_invite_EPTV.py:32-38 | registering the same username twice: the second call changes nothing, and the name is stored exactly once |
| Users.PasswordDetermined | Gestion_invite_EPTV.py:25-30 | with unique usernames, two passwords that both pass the check for one user are equal |
| Users.AddedAllKeepsLogins | Gestion_invite_EPTV.py:32-38 | any series of add_user calls keeps every pair that passed the check |
| Users.AddedAllAuthenticates | Gestion_invite_EPTV.py:25-38 | after a series of add_user calls with distinct fresh usernames, each of them passes the check with exactly its password |
| Users.RegisterAdminScenario | Gestion_invite_EPTV.py:25-38 | after registering admin/pw1 on an empty file, admin/pw1 passes and admin/wrong fails |
| Text.Lower | Gestion_invite_EPTV.py:134-135 | lower-casing never yields an upper-case ASCII letter, turns each one into its own lower-case letter (code point plus 32), and leaves every other character alone |
| Text.LowerStr | Gestion_invite_EPTV.py:134-135 | a lower-cased string has the same length and no upper-case ASCII letter; at each position a capital becomes its own lower-case letter and any other character is kept |
| Text.LowerStrIdempotent | Gestion_invite_EPTV.py:134-135 | lower-casing twice is lower-casing once |
| Text.FindFrom | Gestion_invite_EPTV.py:148 | returns the leftmost occurrence of the separator at or after a start index, or none when there is none |
| Text.Split | Gestion_invite_EPTV.py:148 | split parts joined with the separator give back the string; no part contains the separator; one part exactly when the string has no separator |
| Text.RStrip | Gestion_invite_EPTV.py:149 | the result is a prefix of the input that does not end in the character, and everything cut off is that character |
| Text.PrefixKeepsAbsence | Gestion_invite_EPTV.py:149 | cutting trailing characters cannot create a separator |
| Filtering.Filter | Gestion_invite_EPTV.py:150-153 | the comprehension keeps only elements that pass the test and is never longer than its input |
| Filtering.FilterIsSubsequence | Gestion_invite_EPTV.py:150-153 | the comprehension keeps the original order |
| Filtering.FilterCount | Gestion_invite_EPTV.py:150-153 | each passing value appears as often as in the input, each failing value not at all |
| Filtering.FilterKeepsAll | Gestion_invite_EPTV.py:150-153 | a test every element passes changes nothing |
| Filtering.FilterEmpty | Gestion_invite_EPTV.py:137-140 | the result is empty exactly when no element passes |
| Filtering.FilterShrinks | Gestion_invite_EPTV.py:150-153 | if one element fails the test, the result is strictly shorter |
| Filtering.FilterAppend | Gestion_invite_EPTV.py:133-136 | filtering a list with one element appended gives the old result, then the new element if it passes |
| Filtering.FilterCongruent | Gestion_invite_EPTV.py:133-136 | two tests that agree on every element select the same elements |
| Guests.PadDigits | Gestion_invite_EPTV.py:109 | zero-padded decimal text has exactly the width asked for and only digits |
| Guests.PadDigitsRoundTrip | Gestion_invite_EPTV.py:109 | zero-padded text reads back to the number when the number fits |
| Guests.IsoDate | Gestion_invite_EPTV.py:109 | str(date) has the shape YYYY-MM-DD |
| Guests.IsoDateRoundTrip | Gestion_invite_EPTV.py:109 | the stored date text reads back to the date entered |
| Guests.MakeGuest | Gestion_invite_EPTV.py:104-114 | the saved record carries the eight text fields as typed and the date as ISO text that reads back to the date entered |
| Guests.Matches | Gestion_invite_EPTV.py:134-135 | the empty query matches every guest; a match needs a query no longer than the nom or the prenom |
| Guests.Search | Gestion_invite_EPTV.py:131-136 | the search result keeps list order and holds only matching guests |
| Guests.Delete | Gestion_invite_EPTV.py:150-153 | the list after delete keeps list order and holds no guest with the pair |
| Guests.SearchExact | Gestion_invite_EPTV.py:131-136 | the search returns, in list order, exactly the guests whose lower-cased nom or prenom contains the lower-cased query, each as often as stored |
| Guests.SearchEmpty | Gestion_invite_EPTV.py:137-140 | the search result is empty exactly when no guest matches |
| Guests.SearchIgnoresCase | Gestion_invite_EPTV.py:134-135 | a query and its lower-cased form find the same guests |
| Guests.SearchAfterAdd | Gestion_invite_EPTV.py:131-136 | after adding a guest, the search shows the earlier results and then the new guest if it matches |
| Guests.SearchAliScenario | Gestion_invite_EPTV.py:131-136 | the guest Ali Ben is found by the query "ali" |
| Guests.DeleteExact | Gestion_invite_EPTV.py:150-153 | delete keeps, in list order, exactly the guests whose (nom, date) differs from the pair; every duplicate of the pair goes |
| Guests.DeleteAbsent | Gestion_invite_EPTV.py:150-153 | deleting a pair that no guest has leaves the list unchanged |
| Guests.DeletePresent | Gestion_invite_EPTV.py:150-153 | deleting a pair that some guest has removes that guest and shortens the list |
| Labels.Label | Gestion_invite_EPTV.py:145 | every label holds the separator " (" and ends in ")" |
| Labels.LabelOf | Gestion_invite_EPTV.py:145 | a guest whose nom and date are safe gets a label that parses back to its pair |
| Labels.DeleteOptions | Gestion_invite_EPTV.py:145 | the delete selector has one option per guest, in list order, and each safe guest's option parses back to its pair |
| Labels.LabelNeverTooFew | Gestion_invite_EPTV.py:145-148 | a label always splits into at least two parts, so only "too many values" can fail the unpack |
| Labels.ParseLabel | Gestion_invite_EPTV.py:148-149 | a successful parse yields a nom without " (" and a date without " (" and without trailing ")"; a failure reports a part count other than two |
| Labels.NoSeparatorBefore | Gestion_invite_EPTV.py:145 | in the label of a nom without " (", no separator starts inside the nom or across the seam |
| Labels.SplitLabel | Gestion_invite_EPTV.py:145-148 | the label of a nom without " (" splits into the nom, then the split of the date with its ")" |
| Labels.CloseKeepsAbsence | Gestion_invite_EPTV.py:145 | the closing ")" of the label never completes a separator |
| Labels.CloseKeepsPresence | Gestion_invite_EPTV.py:145 | a separator inside the date survives the closing ")" |
| Labels.ParseLabelOf | Gestion_invite_EPTV.py:145-149 | a label whose nom and date hold no " (" parses to the nom and the date without trailing ")" |
| Labels.LabelRoundTrip | Gestion_invite_EPTV.py:145-149 | a nom and a date with no " (", the date not ending in ")", are recovered exactly from their label |
| Labels.LabelLosesDateParens | Gestion_invite_EPTV.py:149 | a date ending in ")" comes back from its label changed |
| Labels.UnpackFailsOnNom | Gestion_invite_EPTV.py:148 | a nom containing " (" splits the label into three or more parts, so the two-name unpack fails |
| Labels.UnpackFailsOnDate | Gestion_invite_EPTV.py:148 | a date containing " (" also makes the unpack fail |
| Labels.LabelParsesIff | Gestion_invite_EPTV.py:145-148 | a label parses exactly when neither its nom nor its date contains " (" |
| Labels.ParseLabelStable | Gestion_invite_EPTV.py:148-149 | a parsed pair, labelled again, parses to itself |
| Labels.IsoDateSafe | Gestion_invite_EPTV.py:109 | the stored date text never contains " (" and never ends in ")" |
| Labels.FormGuestLabelRoundTrip | Gestion_invite_EPTV.py:104-115 | a guest entered through the form with a nom free of " (" is recovered from its label |
| Labels.DeleteByLabelRemoves | Gestion_invite_EPTV.py:145-153 | deleting through the label of a guest with a safe pair removes that guest and shortens the list |
| Navigation.Next | Gestion_invite_EPTV.py:58-61 | the transition keeps the navigation invariant; page or username change only by a passing login on the login page, which records that username, or by a logout on the main page, which returns to the start |
| Navigation.StartIsLoggedOut | Gestion_invite_EPTV.py:41-44 | the fresh session (login page, empty username) satisfies the navigation invariant whatever the users file holds |
| Navigation.InvariantSurvivesGrowth | Gestion_invite_EPTV.py:36-38 | a logged-in username stays a stored username as records are appended to the users file |
| Navigation.NextKeepsInvariant | Gestion_invite_EPTV.py:58-61 | the login page has an empty username and the main page a stored username, after every request and as the users file grows |
| Navigation.LoginIff | Gestion_invite_EPTV.py:58-61 | on the login page a submitted login opens the main page if and only if it passes the credential check, and a passing login records that username |
| Navigation.LogoutResets | Gestion_invite_EPTV.py:188-190 | logout returns to the login page with an empty username |
| Session.App.constructor | Gestion_invite_EPTV.py:41-50 | the session starts at the login page with no username, and the guest list is the guests file, or empty when that file is missing |
| Session.App.Login | Gestion_invite_EPTV.py:58-64 | a passing check records the username and moves to the main page; a failing one changes nothing and reports wrong credentials |
| Session.App.AddGuest | Gestion_invite_EPTV.py:103-118 | the form's record, with the date as ISO text, is appended as the last guest, earlier guests unchanged |
| Session.App.ListGuests | Gestion_invite_EPTV.py:120-126 | shows the whole list, or the no-guests notice when it is empty |
| Session.App.SearchGuests | Gestion_invite_EPTV.py:128-140 | an empty query does nothing; otherwise it shows the matching guests, or the warning exactly when no guest matches |
| Session.App.DeleteGuest | Gestion_invite_EPTV.py:142-159 | an empty list shows the notice; a label that does not unpack changes nothing; otherwise every guest with the parsed pair is removed |
| Session.App.ExportGuests | Gestion_invite_EPTV.py:161-175 | exports every guest in list order, or shows the notice when there is none |
| Session.App.AddUser | Gestion_invite_EPTV.py:177-186 | the users file becomes that of add_user, a taken name is reported, and unique usernames stay unique |
| Session.App.Logout | Gestion_invite_EPTV.py:188-191 | back to the login page with an empty username, both files unchanged |
| Session.Effect | Gestion_invite_EPTV.py:91-191 | one request changes the users file only by add_user on a submitted user (one record appended), the guest list only on a submitted guest or delete, and nothing on the login page or for a request the page does not own |
| Session.App.Handle | Gestion_invite_EPTV.py:193-197 | each page handles only its own requests, and a request of the other page is ignored; page and username follow Next; the users file and the guest list become exactly those of Effect: the guest appended, the parsed pair deleted, the user added, or both unchanged |
| Session.LoginScenario | Gestion_invite_EPTV.py:53-64 | with admin/pw1 stored, a wrong password is refused, the right one logs in, and logout returns to the start |
| Session.GuestScenario | Gestion_invite_EPTV.py:91-159 | on the main page the guest Ali Ben is added, found by the query "ali", and deleted through its own label, leaving the list empty |

## Left out

- Streamlit rendering: titles, widgets, the sidebar, the welcome text and the
  image, shown only when its file loads. A message is modelled as an `Outcome`
  value. `st.rerun()` after a successful delete or user creation discards the
  message on screen, and the model does not show this.
- File I/O and JSON: `load_users`, `save_users` and the `invites.json`
  reads and writes are the sequences themselves. The users file's
  decode-error fallback is not modelled: a malformed file would read as no
  users. Neither is the crash `load_users` raises when `users.json` is
  missing. Only a missing `invites.json` at session start is modelled, as
  `None`.
- Records read from the files are assumed to hold every key with a string
  value. A record that lacks a key makes the source raise `KeyError`. A
  non-string value does not: a numeric password simply never equals the typed
  one, so the credential check returns false; a numeric `nom` breaks the
  pandas lower-casing of the search, and its label never parses back to the
  stored value, so the delete removes nothing.
- Guests.Matches: uses plain substring containment. pandas `str.contains`
  treats the query as a regular expression, so a query holding `.`, `(`, `*`
  and similar characters behaves differently (or raises) in the source.
- Session.App.SearchGuests: on an empty guest list the source builds a table
  with no `nom` column and raises `KeyError`. The model reports no match
  instead.
- Text.Lower: ASCII-only. Unicode case mapping of `str.lower()`, such as
  accented capitals, is not modelled.
- Session.App.ExportGuests: returns the rows of the sheet. The script fixes
  the sheet name `Invités`, the file name `invites_eptv.xlsx` and the
  spreadsheet MIME type as literals; these are not modelled. The spreadsheet
  bytes themselves are produced by pandas and openpyxl through `BytesIO`,
  libraries outside the script.
- The date widget's default value, today's date, comes from the clock. Here it
  is simply a field of the form.
- Concurrent sessions sharing the two files (last writer wins) are out of scope.
- Line 145 puts a backslash inside an f-string expression, which Python accepts
  only from version 3.12. The model assumes an interpreter that accepts the file.
