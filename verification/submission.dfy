/** The survey form's submission: the boundary at which records are made. */
module Submission {

  import opened Wrappers
  import opened Timestamps
  import opened Records
  import Counting

  /** The widget values of one submitted form. Text inputs always yield a
      string, possibly empty. */
  datatype FormInput = FormInput(
    name: string,
    email: string,
    age: int,
    gender: Gender,
    country: string,
    city: string,
    fanSince: int,
    favoriteGame: Game,
    instagram: string,
    twitter: string,
    twitch: string,
    discord: string,
    engagement: seq<Activity>,
    purchaseFrequency: PurchaseFrequency)

  /** What the widgets themselves guarantee: the age box is limited to 10..100,
      the slider to 0..10, and a multiselect never repeats an option. The closed
      choices (gender, game, activities, purchase frequency) are enforced by
      their types. */
  predicate WidgetBounds(f: FormInput) {
    10 <= f.age <= 100 && 0 <= f.fanSince <= 10 && Counting.Distinct(f.engagement)
  }

  /** Why a submission was refused. */
  datatype SubmitError = MissingRequiredField

  datatype SubmitResult = Accepted(record: FanRecord) | Rejected(error: SubmitError)

  /** The record a valid form produces: every widget value as entered, each
      handle stored as a (possibly empty) string, stamped with the current time. */
  function Submit(f: FormInput, now: Time): (res: SubmitResult)
    ensures res.Accepted? <==> f.name != [] && f.email != [] && f.country != []
    ensures res.Accepted? ==>
      && res.record.name == f.name && res.record.email == f.email
      && res.record.age == f.age && res.record.gender == f.gender
      && res.record.country == f.country && res.record.city == f.city
      && res.record.fanSince == f.fanSince && res.record.favoriteGame == f.favoriteGame
      && res.record.instagram == Some(f.instagram) && res.record.twitter == Some(f.twitter)
      && res.record.twitch == Some(f.twitch) && res.record.discord == Some(f.discord)
      && res.record.engagement == Some(f.engagement)
      && res.record.purchaseFrequency == f.purchaseFrequency
      && res.record.timestamp == Stamp(now)
  {
    if f.name != [] && f.email != [] && f.country != [] then
      Accepted(FanRecord(f.name, f.email, f.age, f.gender, f.country, f.city, f.fanSince,
                         f.favoriteGame, Some(f.instagram), Some(f.twitter), Some(f.twitch),
                         Some(f.discord), Some(f.engagement), f.purchaseFrequency, Stamp(now)))
    else Rejected(MissingRequiredField)
  }

  /** Every record the form accepts lies in the record domain. */
  lemma SubmittedRecordIsValid(f: FormInput, now: Time)
    requires WidgetBounds(f)
    ensures Submit(f, now).Accepted? ==> ValidRecord(Submit(f, now).record)
  {
  }

  /** Because every handle is stored as a string, a submitted record counts as
      present on all four platforms, whatever was typed. */
  lemma SubmittedRecordOnAllPlatforms(f: FormInput, now: Time)
    ensures Submit(f, now).Accepted? ==> PlatformCount(Submit(f, now).record) == 4
  {
    if Submit(f, now).Accepted? {
      PlatformCountSpec(Submit(f, now).record);
    }
  }
}
