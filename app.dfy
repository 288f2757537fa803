/** The pure pieces of the request handlers in app.py: the page count of the
    workout list, the paragraph split of an article, the message rules of
    login, change_password and activity, and the empty-history rule of stats.
    Database queries, password hashing and the activity field validators are
    parameters. */
module App {
  import opened Wrappers
  import opened Messages
  import opened Validators
  import opened Metrics

  // ---------------------------------------------------------------------------
  // workouts: total_pages
  // ---------------------------------------------------------------------------

  const WorkoutsPerPage: nat := 8

  /** (total + 8 - 1) // 8: the fewest pages of eight that hold every workout. */
  function TotalPages(totalWorkouts: nat): (pages: nat)
    ensures pages == 0 <==> totalWorkouts == 0
    ensures totalWorkouts <= pages * WorkoutsPerPage
    ensures pages > 0 ==> (pages - 1) * WorkoutsPerPage < totalWorkouts
  {
    (totalWorkouts + WorkoutsPerPage - 1) / WorkoutsPerPage
  }

  // ---------------------------------------------------------------------------
  // show_article: content.split('|')
  // ---------------------------------------------------------------------------

  const ParagraphSeparator: char := '|'

  /** Occurrences of `c` in `s`. */
  function Count(s: string, c: char): (n: nat)
    ensures n <= |s|
  {
    if s == [] then 0 else (if s[0] == c then 1 else 0) + Count(s[1..], c)
  }

  /** '|'.join(paragraphs) */
  function Join(paragraphs: seq<string>): string
    requires paragraphs != []
  {
    if |paragraphs| == 1 then paragraphs[0]
    else paragraphs[0] + [ParagraphSeparator] + Join(paragraphs[1..])
  }

  /** str.split('|'): the pieces between separators, empty ones included. */
  function Split(content: string): (paragraphs: seq<string>)
    ensures |paragraphs| == Count(content, ParagraphSeparator) + 1
    ensures forall i :: 0 <= i < |paragraphs| ==> ParagraphSeparator !in paragraphs[i]
    ensures Join(paragraphs) == content
  {
    if content == [] then [""]
    else
      var rest := Split(content[1..]);
      if content[0] == ParagraphSeparator then
        assert ([""] + rest)[1..] == rest;
        assert content == [ParagraphSeparator] + content[1..];
        [""] + rest
      else
        var first := [content[0]] + rest[0];
        var paragraphs := [first] + rest[1..];
        assert paragraphs[1..] == rest[1..];
        assert ParagraphSeparator !in first by {
          assert forall j :: 1 <= j < |first| ==> first[j] == rest[0][j - 1];
        }
        assert Join(paragraphs) == [content[0]] + Join(rest) by {
          if |rest| > 1 {
            assert rest == [rest[0]] + rest[1..];
          }
        }
        assert content == [content[0]] + content[1..];
        paragraphs
  }

  /** Content without a separator is a single paragraph. */
  lemma {:induction false} SplitWhole(p: string)
    requires ParagraphSeparator !in p
    ensures Split(p) == [p]
    decreases |p|
  {
    if p != [] {
      assert ParagraphSeparator !in p[1..];
      SplitWhole(p[1..]);
      assert [p[0]] + p[1..] == p;
    }
  }

  /** A first character that is not the separator starts the first paragraph. */
  lemma SplitStep(content: string)
    requires content != [] && content[0] != ParagraphSeparator
    ensures Split(content) ==
              [[content[0]] + Split(content[1..])[0]] + Split(content[1..])[1..]
  {
  }

  /** Splitting a separator-free piece followed by a separator peels it off. */
  lemma {:induction false} SplitPeel(p: string, s: string)
    requires ParagraphSeparator !in p
    ensures Split(p + [ParagraphSeparator] + s) == [p] + Split(s)
    decreases |p|
  {
    var t := p + [ParagraphSeparator] + s;
    if p == [] {
      assert t == [ParagraphSeparator] + s;
      assert t[1..] == s;
    } else {
      var q := p[1..];
      var u := q + [ParagraphSeparator] + s;
      assert ParagraphSeparator !in q;
      SplitPeel(q, s);
      assert t == [p[0]] + u;
      assert t[1..] == u;
      SplitStep(t);
      assert ([q] + Split(s))[1..] == Split(s);
      assert [p[0]] + q == p;
    }
  }

  /** Joining separator-free paragraphs and splitting again gives them back. */
  lemma {:induction false} SplitJoin(paragraphs: seq<string>)
    requires paragraphs != []
    requires forall i :: 0 <= i < |paragraphs| ==> ParagraphSeparator !in paragraphs[i]
    ensures Split(Join(paragraphs)) == paragraphs
    decreases |paragraphs|
  {
    SplitWhole(paragraphs[0]);
    if |paragraphs| > 1 {
      SplitJoin(paragraphs[1..]);
      SplitPeel(paragraphs[0], Join(paragraphs[1..]));
      assert [paragraphs[0]] + paragraphs[1..] == paragraphs;
    }
  }

  // ---------------------------------------------------------------------------
  // login
  // ---------------------------------------------------------------------------

  /** A row of the User table. */
  datatype Account = Account(id: int, username: string, email: string, passwordHash: string)

  const UsernameOrEmailRequired := Error("Username or email is required")
  const LoginPasswordRequired := Error("Password is required")
  const InvalidCredentials := Error("Invalid username, email, and/or password")

  /** str.lower on one character, ASCII letters only. */
  function LowerChar(c: char): (d: char)
    ensures IsUpper(c) ==> IsLower(d) && d as int - c as int == 'a' as int - 'A' as int
    ensures !IsUpper(c) ==> d == c
  {
    if IsUpper(c) then (c as int - 'A' as int + 'a' as int) as char else c
  }

  /** str.lower: login matches usernames and emails case-insensitively. */
  function Lower(s: string): (r: string)
    ensures |r| == |s|
    ensures forall i :: 0 <= i < |s| ==> r[i] == LowerChar(s[i])
  {
    if s == [] then [] else [LowerChar(s[0])] + Lower(s[1..])
  }

  /** Lowering leaves no upper-case letter behind, so lowering twice changes
      nothing more. */
  lemma LowerIsIdempotent(s: string)
    ensures forall i :: 0 <= i < |Lower(s)| ==> !IsUpper(Lower(s)[i])
    ensures Lower(Lower(s)) == Lower(s)
  {
  }

  /** The POST branch of login. `findUser` is the query by username or email,
      `checkPassword` the hash check. The user is logged in exactly when no
      message is produced. */
  method Login(usernameOrEmail: string, password: string,
               findUser: string -> Option<Account>,
               checkPassword: (Account, string) -> bool)
    returns (messages: seq<Message>, user: Option<Account>)
    ensures |messages| <= 1 && AllErrors(messages)
    ensures usernameOrEmail == "" ==> messages == [UsernameOrEmailRequired]
    ensures usernameOrEmail != "" && password == "" ==> messages == [LoginPasswordRequired]
    ensures usernameOrEmail != "" && password != "" && messages != [] ==>
              messages == [InvalidCredentials]
    ensures usernameOrEmail != "" && password != "" ==>
              (messages == [] <==>
               findUser(Lower(usernameOrEmail)).Some? &&
               checkPassword(findUser(Lower(usernameOrEmail)).value, password))
    ensures user.Some? <==> messages == []
    ensures user.Some? ==> user == findUser(Lower(usernameOrEmail)) && checkPassword(user.value, password)
  {
    var name := Lower(usernameOrEmail);
    messages := [];
    user := None;
    if name == "" {
      messages := messages + [UsernameOrEmailRequired];
    } else if password == "" {
      messages := messages + [LoginPasswordRequired];
    }
    if messages == [] {
      var found := findUser(name);
      if found.None? || !checkPassword(found.value, password) {
        messages := messages + [InvalidCredentials];
      } else {
        user := found;
      }
    }
  }

  // ---------------------------------------------------------------------------
  // change_password
  // ---------------------------------------------------------------------------

  const UserNotFound := Error("User not found.")
  const CurrentPasswordIncorrect := Error("Current password is incorrect.")
  const NewPasswordRequired := Error("New Password is required.")
  const PasswordMustDiffer := Error("New password must be different from the current password.")
  const PasswordChanged := Message(Success, "Password successfully changed.")

  /** The checks on the new password itself, before the confirmation. */
  function NewPasswordChecks(currentPassword: string, newPassword: string): (r: seq<Message>)
    ensures AllErrors(r)
    ensures newPassword == "" ==> r == [NewPasswordRequired]
  {
    if newPassword == "" then [NewPasswordRequired]
    else PasswordReport(newPassword) + (if newPassword == currentPassword then [PasswordMustDiffer] else [])
  }

  /** The messages about the new password once the current one is verified. */
  function NewPasswordErrors(currentPassword: string, newPassword: string, confirmation: string)
    : (r: seq<Message>)
    ensures AllErrors(r)
    ensures newPassword == "" ==> |r| > 0 && r[0] == NewPasswordRequired
  {
    NewPasswordChecks(currentPassword, newPassword) + ConfirmationReport(newPassword, confirmation)
  }

  /** The "must be different" message is none of the other messages that
      can precede or follow it. */
  lemma MustDifferIsDistinct()
    ensures forall rule :: RuleMessage(rule) != PasswordMustDiffer
    ensures PasswordMustDiffer != NewPasswordRequired
    ensures PasswordMustDiffer != ConfirmationRequired && PasswordMustDiffer != PasswordsDoNotMatch
  {
    assert |PasswordMustDiffer.text| == 57;
    forall rule
      ensures RuleMessage(rule) != PasswordMustDiffer
    {
      assert |RuleText(rule)| != 57;
    }
  }

  /** The new password is accepted exactly when it keeps every password rule,
      differs from the current one and equals the confirmation. */
  lemma NewPasswordAccepted(currentPassword: string, newPassword: string, confirmation: string)
    ensures NewPasswordErrors(currentPassword, newPassword, confirmation) == [] <==>
              AcceptablePassword(newPassword) && newPassword != currentPassword &&
              confirmation == newPassword
  {
    assert AcceptablePassword(newPassword) ==> newPassword != "" by {
      assert PasswordRules[0] == NonEmpty;
    }
  }

  /** "must be different" is reported exactly when the new password is given
      and equals the current one. */
  lemma MustDifferExactlyWhenEqual(currentPassword: string, newPassword: string, confirmation: string)
    ensures PasswordMustDiffer in NewPasswordErrors(currentPassword, newPassword, confirmation) <==>
              newPassword != "" && newPassword == currentPassword
  {
    MustDifferIsDistinct();
  }

  /** The account's password was found and matches the current one given. */
  predicate Verified(sessionUserId: Option<int>, findUser: int -> Option<Account>,
                     checkPassword: (Account, string) -> bool, currentPassword: string)
  {
    sessionUserId.Some? && findUser(sessionUserId.value).Some? &&
    checkPassword(findUser(sessionUserId.value).value, currentPassword)
  }

  /** The POST branch of change_password; `changed` is set_password + commit. */
  method ChangePassword(sessionUserId: Option<int>, findUser: int -> Option<Account>,
                        checkPassword: (Account, string) -> bool,
                        currentPassword: string, newPassword: string, confirmation: string)
    returns (messages: seq<Message>, changed: bool)
    ensures sessionUserId.None? || findUser(sessionUserId.value).None? ==>
              messages == [UserNotFound] && !changed
    ensures sessionUserId.Some? && findUser(sessionUserId.value).Some? &&
            !checkPassword(findUser(sessionUserId.value).value, currentPassword) ==>
              messages == [CurrentPasswordIncorrect] && !changed
    ensures changed <==>
              Verified(sessionUserId, findUser, checkPassword, currentPassword) &&
              NewPasswordErrors(currentPassword, newPassword, confirmation) == []
    ensures changed ==> messages == [PasswordChanged]
    ensures changed ==>
              (AcceptablePassword(newPassword) && newPassword != currentPassword &&
               confirmation == newPassword)
    ensures Verified(sessionUserId, findUser, checkPassword, currentPassword) ==>
              (PasswordMustDiffer in messages <==> newPassword != "" && newPassword == currentPassword)
    ensures Verified(sessionUserId, findUser, checkPassword, currentPassword) && !changed ==>
              messages == NewPasswordErrors(currentPassword, newPassword, confirmation)
  {
    var log := new MessageLog();
    changed := false;
    if sessionUserId.None? {
      log.Append(UserNotFound);
      messages := log.entries;
      return;
    }
    var user := findUser(sessionUserId.value);
    if user.None? {
      log.Append(UserNotFound);
    } else if !checkPassword(user.value, currentPassword) {
      log.Append(CurrentPasswordIncorrect);
    } else {
      if newPassword == "" {
        log.Append(NewPasswordRequired);
      } else {
        ValidatePassword(newPassword, log);
        if newPassword == currentPassword {
          log.Append(PasswordMustDiffer);
        }
      }
      assert log.entries == NewPasswordChecks(currentPassword, newPassword);
      ValidateConfirmationPassword(newPassword, confirmation, log);
      NewPasswordAccepted(currentPassword, newPassword, confirmation);
      MustDifferExactlyWhenEqual(currentPassword, newPassword, confirmation);
      if log.entries == [] {
        log.Append(PasswordChanged);
        changed := true;
      }
    }
    messages := log.entries;
  }

  // ---------------------------------------------------------------------------
  // activity
  // ---------------------------------------------------------------------------

  /** The fields of the activity form, in the order they are validated. */
  datatype Field =
    | Age | Gender | Weight | Height | ActivityType | Duration | Intensity
    | RestingHeartRate | ExerciseHeartRate | BodyFatPercentage | MuscleMass | WaterIntake

  function FieldName(f: Field): string
  {
    match f
    case Age => "Age"
    case Gender => "Gender"
    case Weight => "Weight"
    case Height => "Height"
    case ActivityType => "Activity Type"
    case Duration => "Duration"
    case Intensity => "Intensity"
    case RestingHeartRate => "Resting Heart Rate"
    case ExerciseHeartRate => "Exercise Heart Rate"
    case BodyFatPercentage => "Body Fat Percentage"
    case MuscleMass => "Muscle Mass"
    case WaterIntake => "Water Intake"
  }

  /** Fields the handler itself checks for presence before calling their
      validator; gender, activity type and intensity go straight to theirs. */
  predicate PresenceChecked(f: Field)
  {
    !(f == Gender || f == ActivityType || f == Intensity)
  }

  /** The messages one field adds: "<Field> is required." when a
      presence-checked field is empty, otherwise whatever the field's
      validator (`validate`, from the activity_validations module) appends. */
  function FieldMessages(f: Field, value: string, validate: (Field, string) -> seq<Message>)
    : (r: seq<Message>)
    ensures PresenceChecked(f) && value == "" ==> r == [Required(FieldName(f))]
    ensures !PresenceChecked(f) || value != "" ==> r == validate(f, value)
  {
    if PresenceChecked(f) && value == "" then [Required(FieldName(f))] else validate(f, value)
  }

  /** No field of the form gives a message. */
  predicate FieldsQuiet(form: Field -> string, validate: (Field, string) -> seq<Message>)
  {
    forall f :: FieldMessages(f, form(f), validate) == []
  }

  /** The messages of the whole form: every field's, in form order; no field
      stops the others from being checked. */
  function FormMessages(form: Field -> string, validate: (Field, string) -> seq<Message>)
    : (r: seq<Message>)
    ensures r == [] <==> FieldsQuiet(form, validate)
  {
    var r :=
      FieldMessages(Age, form(Age), validate) +
      FieldMessages(Gender, form(Gender), validate) +
      FieldMessages(Weight, form(Weight), validate) +
      FieldMessages(Height, form(Height), validate) +
      FieldMessages(ActivityType, form(ActivityType), validate) +
      FieldMessages(Duration, form(Duration), validate) +
      FieldMessages(Intensity, form(Intensity), validate) +
      FieldMessages(RestingHeartRate, form(RestingHeartRate), validate) +
      FieldMessages(ExerciseHeartRate, form(ExerciseHeartRate), validate) +
      FieldMessages(BodyFatPercentage, form(BodyFatPercentage), validate) +
      FieldMessages(MuscleMass, form(MuscleMass), validate) +
      FieldMessages(WaterIntake, form(WaterIntake), validate);
    assert r == [] ==> FieldsQuiet(form, validate) by {
      if r == [] {
        forall f ensures FieldMessages(f, form(f), validate) == [] {
          assert f == Age || f == Gender || f == Weight || f == Height ||
                 f == ActivityType || f == Duration || f == Intensity ||
                 f == RestingHeartRate || f == ExerciseHeartRate ||
                 f == BodyFatPercentage || f == MuscleMass || f == WaterIntake;
        }
      }
    }
    r
  }

  /** A presence-checked field the form leaves empty. */
  predicate Missing(form: Field -> string, f: Field)
  {
    PresenceChecked(f) && form(f) == ""
  }

  /** Each missing field is reported by name, whatever the other fields hold. */
  lemma MissingFieldReported(form: Field -> string, validate: (Field, string) -> seq<Message>,
                             f: Field)
    requires Missing(form, f)
    ensures Required(FieldName(f)) in FormMessages(form, validate)
  {
    var ms := FormMessages(form, validate);
    match f
    case Age => assert FieldMessages(Age, form(Age), validate) == [Required(FieldName(Age))];
    case Gender =>
    case Weight => assert FieldMessages(Weight, form(Weight), validate) == [Required(FieldName(Weight))];
    case Height => assert FieldMessages(Height, form(Height), validate) == [Required(FieldName(Height))];
    case ActivityType =>
    case Duration => assert FieldMessages(Duration, form(Duration), validate) == [Required(FieldName(Duration))];
    case Intensity =>
    case RestingHeartRate => assert FieldMessages(RestingHeartRate, form(RestingHeartRate), validate) == [Required(FieldName(RestingHeartRate))];
    case ExerciseHeartRate => assert FieldMessages(ExerciseHeartRate, form(ExerciseHeartRate), validate) == [Required(FieldName(ExerciseHeartRate))];
    case BodyFatPercentage => assert FieldMessages(BodyFatPercentage, form(BodyFatPercentage), validate) == [Required(FieldName(BodyFatPercentage))];
    case MuscleMass => assert FieldMessages(MuscleMass, form(MuscleMass), validate) == [Required(FieldName(MuscleMass))];
    case WaterIntake => assert FieldMessages(WaterIntake, form(WaterIntake), validate) == [Required(FieldName(WaterIntake))];
  }

  /** A form without age and weight gets at least two messages. */
  lemma AgeAndWeightMissing(form: Field -> string, validate: (Field, string) -> seq<Message>)
    requires form(Age) == "" && form(Weight) == ""
    ensures |FormMessages(form, validate)| >= 2
    ensures Required("Age") in FormMessages(form, validate)
    ensures Required("Weight") in FormMessages(form, validate)
  {
    MissingFieldReported(form, validate, Age);
    MissingFieldReported(form, validate, Weight);
  }

  /** Messages collected before the form's keep every missing field named. */
  lemma MissingFieldsReported(earlier: seq<Message>, form: Field -> string,
                              validate: (Field, string) -> seq<Message>)
    ensures forall f :: Missing(form, f) ==>
              Required(FieldName(f)) in earlier + FormMessages(form, validate)
  {
    forall f | Missing(form, f)
      ensures Required(FieldName(f)) in earlier + FormMessages(form, validate)
    {
      MissingFieldReported(form, validate, f);
    }
  }

  /** The twelve validation steps of the activity handler, one field after
      the other; each step is FieldMessages of that field. */
  method ValidateActivityForm(form: Field -> string, validate: (Field, string) -> seq<Message>)
    returns (messages: seq<Message>)
    ensures messages == FormMessages(form, validate)
  {
    messages := [];
    messages := messages + FieldMessages(Age, form(Age), validate);
    assert messages == FieldMessages(Age, form(Age), validate);
    messages := messages + FieldMessages(Gender, form(Gender), validate);
    messages := messages + FieldMessages(Weight, form(Weight), validate);
    messages := messages + FieldMessages(Height, form(Height), validate);
    messages := messages + FieldMessages(ActivityType, form(ActivityType), validate);
    messages := messages + FieldMessages(Duration, form(Duration), validate);
    messages := messages + FieldMessages(Intensity, form(Intensity), validate);
    messages := messages + FieldMessages(RestingHeartRate, form(RestingHeartRate), validate);
    messages := messages + FieldMessages(ExerciseHeartRate, form(ExerciseHeartRate), validate);
    messages := messages + FieldMessages(BodyFatPercentage, form(BodyFatPercentage), validate);
    messages := messages + FieldMessages(MuscleMass, form(MuscleMass), validate);
    messages := messages + FieldMessages(WaterIntake, form(WaterIntake), validate);
  }

  const ActivityAdded := Message(Success, "Activity successfully added.")
  const ActivityNotSaved := Error("An error occurred while adding the activity. Please try again.")

  /** The POST branch of activity. `form` gives each submitted field ("" when
      absent), `validate` the messages of the field validators, and
      `commitSucceeds` whether the insert commits. */
  method SubmitActivity(sessionUserId: Option<int>, form: Field -> string,
                        validate: (Field, string) -> seq<Message>, commitSucceeds: bool)
    returns (messages: seq<Message>, saved: bool)
    ensures saved <==>
              sessionUserId.Some? && FormMessages(form, validate) == [] && commitSucceeds
    ensures saved ==> messages == [ActivityAdded]
    ensures !saved ==>
              (messages ==
               (if sessionUserId.None? then [UserNotFound] else []) +
               FormMessages(form, validate) +
               (if sessionUserId.Some? && FormMessages(form, validate) == []
                then [ActivityNotSaved] else []))
    ensures forall f :: Missing(form, f) ==> Required(FieldName(f)) in messages
    ensures form(Age) == "" && form(Weight) == "" ==> |messages| >= 2
  {
    messages := [];
    if sessionUserId.None? {
      messages := messages + [UserNotFound];
    }
    var formMessages := ValidateActivityForm(form, validate);
    MissingFieldsReported(messages, form, validate);
    if form(Age) == "" && form(Weight) == "" {
      AgeAndWeightMissing(form, validate);
    }
    messages := messages + formMessages;

    saved := false;
    if messages == [] {
      if commitSucceeds {
        messages := messages + [ActivityAdded];
        saved := true;
      } else {
        messages := messages + [ActivityNotSaved];
      }
    }
  }

  // ---------------------------------------------------------------------------
  // stats
  // ---------------------------------------------------------------------------

  /** What the stats page shows. */
  datatype DerivedStats = DerivedStats(
    age: int,
    gender: string,
    bodyFatPercentage: real,
    muscleMass: real,
    weight: real,
    height: real,
    bmi: Option<real>,
    bmiCategory: Option<BmiCategory>,
    healthyWeightRange: (real, real),
    weightDifference: real,
    dailyWaterIntake: real,
    userWaterIntake: real,
    charts: seq<Chart>,
    activities: seq<ActivitySample>)

  /** The user's rows ordered by registration time, newest first. */
  predicate NewestFirst(samples: seq<ActivitySample>)
  {
    forall i, j :: 0 <= i < j < |samples| ==> samples[i].registeredAt >= samples[j].registeredAt
  }

  /** The stats handler. `activities` is the user's rows in query order (also
      standing for the distinct query), `newestFirst` the same rows ordered by
      registration time, newest first. No stats without a user or without rows. */
  function Stats(sessionUserId: Option<int>, activities: seq<ActivitySample>,
                 newestFirst: seq<ActivitySample>): (r: Option<DerivedStats>)
    requires HeightsNonZero(activities)
    requires multiset(newestFirst) == multiset(activities) && NewestFirst(newestFirst)
    ensures r.None? <==> sessionUserId.None? || activities == []
    ensures r.Some? ==>
              var latest := newestFirst[0];
              r.value.age == activities[0].age && r.value.gender == activities[0].gender &&
              r.value.weight == latest.weight && r.value.height == latest.height &&
              r.value.userWaterIntake == latest.waterIntake &&
              r.value.bodyFatPercentage == latest.bodyFatPercentage &&
              r.value.muscleMass == latest.muscleMass &&
              (r.value.bmi, r.value.bmiCategory) ==
                CalculateBmiAndCategory(Some(latest.weight), Some(latest.height)) &&
              (r.value.bmi.Some? <==> latest.weight != 0.0) &&
              (r.value.bmi.Some? ==> r.value.bmiCategory == Some(Metrics.Category(r.value.bmi.value))) &&
              Some(r.value.healthyWeightRange) == HealthyWeightRange(Some(latest.height)) &&
              r.value.healthyWeightRange.0 <= r.value.healthyWeightRange.1 &&
              r.value.dailyWaterIntake * 1000.0 == AvgWaterMlPerKg * latest.weight &&
              r.value.weightDifference == WeightDifference(newestFirst) &&
              |r.value.charts| == 2 &&
              Some(r.value.charts[0]) == CreateWeightPlot(activities) &&
              Some(r.value.charts[1]) == CreateBmiPlot(activities) &&
              r.value.charts[0].values == Weights(activities) &&
              r.value.charts[0].registeredAt == RegisteredAts(activities) &&
              r.value.charts[1].values == BmiByActivity(activities) &&
              r.value.charts[1].registeredAt == RegisteredAts(activities) &&
              r.value.activities == newestFirst
  {
    if sessionUserId.None? || activities == [] || newestFirst == [] then None
    else
      var latest := newestFirst[0];
      assert latest in multiset(activities);
      var range := HealthyWeightRange(Some(latest.height));
      var water := DailyWaterIntake(Some(latest));
      var difference := WeightDifference(newestFirst);
      var weightPlot := CreateWeightPlot(activities);
      var (bmi, category) := CalculateBmiAndCategory(Some(latest.weight), Some(latest.height));
      var bmiPlot := CreateBmiPlot(activities);
      if weightPlot.None? || bmiPlot.None? then None
      else
        Some(DerivedStats(
          activities[0].age, activities[0].gender,
          latest.bodyFatPercentage, latest.muscleMass, latest.weight, latest.height,
          bmi, category, range.value, difference, water.value, latest.waterIntake,
          [weightPlot.value, bmiPlot.value], newestFirst))
  }
}
