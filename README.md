# fitfam: validators, health metrics and handler rules in Dafny

fitfam is a Flask fitness site. Users register, log in, record activity
samples (weight, height, heart rates, body fat and more) and see statistics
and progression charts. This project models the logic underneath it:

- **the form validators of `helpers.py`** (`validators.dfy`): username, email,
  password, password confirmation and contact fields. Each one appends at most
  one danger message to the caller's list. That list is the class
  `Messages.MessageLog`, which the validator methods change in place. Each
  method is proved to append exactly what a pure `…Report` function says, and
  the properties are proved about those functions.
- **the health metrics of `helpers.py`** (`metrics.dfy`): BMI and its
  category, the healthy weight range, the daily water target, the difference
  between the two newest weights, the per-sample series and the empty-history
  guards of the two charts.
- **the pure parts of the request handlers in `app.py`** (`app.dfy`):
  - the workout page count;
  - the split of article content into paragraphs on the vertical bar;
  - the messages that `login`, `change_password` and `activity` collect;
  - the no-history rule of `stats`.

  Database lookups, the password-hash check, the activity field validators
  (from a module that is not part of this model) and the commit's outcome are
  parameters.

Shared pieces: `wrappers.dfy` holds `Option`, and `messages.dfy` holds the
flash message and the message list.

## Model

| member | source | states |
|---|---|---|
| Messages.MessageLog.constructor | app.py:218 | a handler's message list starts empty |
| Messages.MessageLog.Append | helpers.py:32-77 | `messages.append(...)`: the message is added at the end and every earlier entry stays as it was |
| Validators.Any | helpers.py:61-67 | the `any(...)` scan finds a hit exactly when some character of the string satisfies the test |
| Validators.UsernameReport | helpers.py:32-37 | at most one danger message; "Username is required." exactly when the username is empty; nothing exactly when it is non-empty and all ASCII letters and digits |
| Validators.ValidateUsername | helpers.py:32-37 | appends UsernameReport to the caller's list; earlier entries are unchanged |
| Validators.EmailPatternMatch | helpers.py:40-44 | the first-'@'/last-'.' test decides the local@domain.tld pattern (TLD of two or more letters) exactly |
| Validators.EmailSplitIsUnique | helpers.py:40 | any split that fits the pattern puts the '@' at the first '@' and the dot at the last '.' |
| Validators.EmailReport | helpers.py:39-46 | at most one danger message; "Email is required." exactly when the email is empty |
| Validators.EmailAcceptedIffPattern | helpers.py:39-46 | no message exactly when the email matches the pattern; the extra '@'/'.' tests never reject a match |
| Validators.ValidateEmail | helpers.py:39-46 | appends EmailReport to the caller's list; earlier entries are unchanged |
| Validators.ConfirmationReport | helpers.py:49-54 | no message exactly when the confirmation is non-empty and equals the password; an empty one gives "required", never "do not match" |
| Validators.ValidateConfirmationPassword | helpers.py:49-54 | appends ConfirmationReport to the caller's list; earlier entries are unchanged |
| Validators.FirstBroken | helpers.py:57-70 | None exactly when every rule holds; otherwise the rule at the first position whose rule is broken |
| Validators.PasswordReport | helpers.py:56-72 | at most one danger message, and none exactly when the password keeps all six rules |
| Validators.PasswordAcceptedIffAllRules | helpers.py:56-72 | accepted exactly when non-empty, at least 8 long, and holding an uppercase letter, a lowercase letter, a digit and a special character |
| Validators.PasswordReportNamesFirstBroken | helpers.py:56-72 | the single message is that of the first broken rule in the order empty, length, uppercase, lowercase, digit, special |
| Validators.SpaceCountsAsSpecial | helpers.py:67 | the space is in the special set: "Passw0rd " is accepted |
| Validators.FirstBrokenIsChain | helpers.py:57-70 | the first broken rule is the one where the source's if/elif chain over the six rules stops |
| Validators.FindBrokenRule | helpers.py:57-70 | the four `any` scans and the if/elif chain return exactly the first broken rule |
| Validators.ValidatePassword | helpers.py:56-72 | appends PasswordReport, the first broken rule's message, to the caller's list; earlier entries are unchanged |
| Validators.ContactReport | helpers.py:75-77 | nothing exactly when the field is non-empty, otherwise "<field> is required." |
| Validators.ValidateContactInputs | helpers.py:75-77 | appends ContactReport to the caller's list; earlier entries are unchanged |
| Metrics.Round1 | helpers.py:83 | `round(x, 1)` lies within half a tenth of x |
| Metrics.Round1Monotone | helpers.py:111 | rounding keeps order, so the rounded bounds keep their order |
| Metrics.Meters | helpers.py:81 | a non-zero height in centimetres is a non-zero height in metres |
| Metrics.HeightSquared | helpers.py:108-110 | the squared height in metres is never negative |
| Metrics.BmiIsWeightPerSquareMetre | helpers.py:80-82 | the unrounded BMI times the squared height in metres is the weight: it is weight per square metre |
| Metrics.CalculateBmi | helpers.py:79-83 | the result lies within 0.05 of weight divided by the height in metres squared |
| Metrics.Label | helpers.py:94-102 | the text of a category is one of "Underweight", "Healthy Weight", "Overweight", "Obese" |
| Metrics.LabelsDistinct | helpers.py:94-102 | two categories have the same text exactly when they are the same category |
| Metrics.BmiCategoryText | helpers.py:94-102 | `bmi_category` returns "Underweight" exactly below 18.5, "Healthy Weight" exactly on [18.5, 25), "Overweight" exactly on [25, 30) and "Obese" exactly from 30 up |
| Metrics.Category | helpers.py:94-102 | each label holds exactly on its closed-open band: below 18.5, [18.5, 25), [25, 30), 30 and above |
| Metrics.CategoryMonotone | helpers.py:94-102 | the category never gets lighter as the BMI grows |
| Metrics.CalculateBmiAndCategory | helpers.py:168-175 | (None, None) exactly when weight or height is missing or zero; otherwise the rounded BMI and the category of that rounded value |
| Metrics.HealthyWeightRange | helpers.py:104-111 | None exactly when the height is missing; otherwise lower bound ≤ upper bound |
| Metrics.HealthyRangeQuirk | helpers.py:97-110 | a BMI between 24.9 and 25 is above the range's upper constant yet labelled Healthy Weight |
| Metrics.DailyWaterIntake | helpers.py:144-150 | None exactly without a sample; otherwise litres × 1000 = 40 × weight |
| Metrics.DailyWaterIntakeAt80 | helpers.py:144-150 | an 80 kg sample gives 3.2 litres |
| Metrics.WeightDifference | helpers.py:153-165 | 0 with fewer than two samples, otherwise newest weight minus the second newest |
| Metrics.WeightDifferenceIgnoresOlder | helpers.py:153-165 | samples older than the two newest never change the difference |
| Metrics.WeightDifferenceAfterRecording | helpers.py:153-165 | after a new sample the difference is its weight minus the previous newest weight |
| Metrics.Weights | helpers.py:179 | one weight per sample, in input order |
| Metrics.RegisteredAts | helpers.py:180 | one timestamp per sample, in input order |
| Metrics.ExtractWeightAndDates | helpers.py:178-181 | both lists have the input's length and hold each sample's weight and timestamp at its position |
| Metrics.BmiByActivity | helpers.py:86-91 | one rounded BMI per sample, each computed from that sample alone, in input order |
| Metrics.SeriesAppend | helpers.py:86-91 | a sample added last adds exactly one point, at the end, to the weight, timestamp and BMI series |
| Metrics.CreateWeightPlot | helpers.py:222-230 | no chart exactly for an empty history; otherwise one (timestamp, weight) point per sample in order |
| Metrics.CreateBmiPlot | helpers.py:269-285 | no chart exactly for an empty history; otherwise one (timestamp, BMI) point per sample in order |
| App.TotalPages | app.py:285 | ceiling of total/8: 0 exactly for no workouts, otherwise (pages−1)·8 < total ≤ pages·8 |
| App.Split | app.py:346 | one more paragraph than there are separator (vertical bar) characters, none containing the separator, and joining them with it gives the content back |
| App.SplitWhole | app.py:346 | content without a separator is a single paragraph, itself |
| App.SplitPeel | app.py:346 | a separator-free piece followed by the separator becomes the first paragraph, and the rest is split on its own |
| App.SplitJoin | app.py:346 | splitting the join of separator-free paragraphs gives back exactly those paragraphs |
| App.LowerChar | app.py:56 | upper-case ASCII letters map to their lower-case letter, every other character to itself |
| App.Lower | app.py:56 | same length, each character lowered in place |
| App.LowerIsIdempotent | app.py:56 | the lowered name holds no upper-case letter, and lowering it again changes nothing |
| App.Login | app.py:54-98 | an empty name gives only "Username or email is required"; a name without a password gives only "Password is required"; with both, the only possible message is "Invalid username, email, and/or password", and there is no message exactly when the lowered name finds an account whose password checks; logged in exactly when there is no message, and then as that account |
| App.NewPasswordChecks | app.py:240-245 | danger messages only; an empty new password gives only "New Password is required." |
| App.NewPasswordErrors | app.py:239-248 | danger messages only; for an empty new password "New Password is required." comes first |
| App.NewPasswordAccepted | app.py:239-250 | no message exactly when the new password keeps every password rule, differs from the current one and equals the confirmation |
| App.MustDifferExactlyWhenEqual | app.py:240-245 | "must be different" is reported exactly when the new password is non-empty and equals the current one |
| App.ChangePassword | app.py:220-260 | no session user or account gives only "User not found."; a wrong current password gives only "Current password is incorrect."; once verified, "must be different" appears exactly when the new password is non-empty and equals the current one; the password changes exactly when it is verified and no new-password message arises, then with only the success message, and only to an acceptable password different from the current one and equal to the confirmation |
| App.FieldMessages | app.py:385-434 | an empty presence-checked field gives only "<Field> is required.", otherwise the field validator's messages |
| App.FormMessages | app.py:384-434 | the form gives no message exactly when no field gives one |
| App.MissingFieldReported | app.py:384-434 | every missing presence-checked field is reported by name, whatever the other fields hold |
| App.MissingFieldsReported | app.py:364-434 | messages collected before the form's do not hide any missing field: each is still named |
| App.AgeAndWeightMissing | app.py:384-434 | a form without age and weight gets at least two messages, naming both |
| App.ValidateActivityForm | app.py:384-434 | the twelve steps accumulate every field's messages in form order, none stopping the others |
| App.SubmitActivity | app.py:359-469 | saved exactly when there is a session user, no field message and a successful commit, then with only the success message; otherwise the messages collected, plus the error message when the commit fails; every missing field is named |
| App.Stats | app.py:491-591 | no stats exactly when there is no session user or no activity; otherwise age and gender come from the first row, and weight, height, body fat, muscle mass and water intake from the newest row; BMI and category are calculate_bmi_and_category of the newest weight and height (a BMI exactly when the weight is non-zero); the healthy range is calculate_healthy_weight_range of the newest height, lower bound first; the water target is 40 ml per kg of the newest weight; the weight difference is that of the newest-first rows; the two charts are the weight plot and the BMI plot of the user's rows, point for point with their timestamps; the rows are listed newest first |

## Left out

- The web layer is not modelled: routing, `session`, `flash`, `redirect`, templates, the `login_required` decorator and the "remember me" cookie. The handlers' GET branches, which only render a form, are left out too.
- Persistence is not modelled. Query results are inputs: `findUser`, the `activities` and `newestFirst` sequences of `Stats`, and the `commitSucceeds` flag standing for a commit that may raise `SQLAlchemyError`. `models.py` is not part of this model, and `check_password` is the parameter `checkPassword`.
- Chart rendering (pandas, seaborn, matplotlib, PNG and base64 in helpers.py:183-265) is modelled as the data points a chart draws (`Chart`).
- Display formatting is not modelled: the "{:.1f}kg - {:.1f}kg" range text, `capitalize` and `strftime` on stats rows, and the article date.
- The dict-subscript helpers `get_age_and_gender`, `get_latest_user_water_intake`, `get_latest_weight_and_height` and `get_latest_bodyfat_and_bodymass` are left out: app.py never calls them.
- Handlers outside the modelled rules are left out: `register`, `logout`, `account`, `articles`, `contact`, the pagination query of `workouts` and the "Article not found" path.
- The activity field validators live in a module that is not part of this model. They are the parameter `validate`, giving the messages each one adds. The converted values they return are not modelled.
- An absent form field (`None` in Python) is modelled as the empty string. Both are falsy, so every modelled branch treats them alike. Python raises on `None.lower()` in `login`, and that is not modelled.
- Character classes are ASCII: `isupper`, `islower`, `isdigit` and `lower` are Unicode-aware in Python.
- The regular expressions are modelled by the shapes they describe. Engine details, such as `$` matching before a trailing newline, are not modelled.
- Metrics.Round1: rounds exact reals, with halves rounded up. Python rounds the binary float, halves to even. Its contract states only the ±0.05 bound.
- Metrics.CalculateBmi: states only that the result is within 0.05 of weight/height². Growth in weight and positivity are not proved, because they are non-linear facts over reals.
- Metrics.HealthyWeightRange: states the None case and the order of the bounds. It does not state that the bounds are 18.5·h² and 24.9·h², rounded.
- Metrics.BmiByActivity: requires every height to be non-zero. The source raises ZeroDivisionError on a zero height; Metrics.CreateBmiPlot and App.Stats carry the same requirement.
- The activity field validators are taken to return the list they are given with their own messages appended. The handler rebinds `messages` to what each returns (app.py:388, 395, 400 and the rest of the chain up to app.py:434), so a validator that dropped or reordered entries would not fit this model.
- `Stats` has one `activities` sequence for both the user's rows (app.py:535-536) and the `distinct()` query over them (app.py:501-505). Age and gender are taken from its first row.
- App.Stats: requires `newestFirst` to be the same rows as `activities`, newest first, as the two queries return them. The `stats_data = None` branch after the healthy range (app.py:550-552) is not modelled: it is unreachable, because `calculate_healthy_weight_range` returns a two-element tuple, which is truthy, whenever a height is present.
