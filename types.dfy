/** The entities of the application's data model (a user profile, a monthly
    consumption record, an earned reward and a chat message) and the two
    failure-carrying wrappers the rest of the model uses. */
module Types {

  datatype Option<+T> = None | Some(value: T)

  /** The outcome of a call that either yields a value or fails with an
      error message (a thrown JavaScript `Error`). */
  datatype Result<+T> = Ok(value: T) | Err(message: string)

  /** A registered account. `id` is the text of the sign-up timestamp. */
  datatype UserProfile = UserProfile(
    id: string,
    name: string,
    password: string,
    address: string,
    apartmentNumber: string,
    floorNumber: string,
    waterMeterNumber: string)

  /** The account fields a sign-up supplies: a profile without its id. */
  datatype ProfileData = ProfileData(
    name: string,
    password: string,
    address: string,
    apartmentNumber: string,
    floorNumber: string,
    waterMeterNumber: string)

  /** The profile a sign-up creates: the given fields plus the fresh id. */
  function WithId(data: ProfileData, id: string): (p: UserProfile)
    ensures p.id == id && p.name == data.name && p.password == data.password
    ensures p.address == data.address && p.apartmentNumber == data.apartmentNumber
    ensures p.floorNumber == data.floorNumber && p.waterMeterNumber == data.waterMeterNumber
  {
    UserProfile(id, data.name, data.password, data.address, data.apartmentNumber,
                data.floorNumber, data.waterMeterNumber)
  }

  /** One monthly meter reading; `date` is an ISO timestamp. */
  datatype ConsumptionRecord = ConsumptionRecord(date: string, consumption: real)

  datatype RewardKind = Badge | Coupon

  /** A reward before it is earned: everything but its id and date. */
  datatype RewardTemplate = RewardTemplate(title: string, description: string, kind: RewardKind, icon: string)

  datatype Reward = Reward(id: string, title: string, description: string, date: string, kind: RewardKind, icon: string)

  /** The reward earned from a template, stamped with an id and a date. */
  function Instantiate(t: RewardTemplate, id: string, date: string): (r: Reward)
    ensures r.id == id && r.date == date
    ensures Template(r) == t
  {
    Reward(id, t.title, t.description, date, t.kind, t.icon)
  }

  /** The template a reward was made from. */
  function Template(r: Reward): RewardTemplate {
    RewardTemplate(r.title, r.description, r.kind, r.icon)
  }

  datatype Role = User | Model

  datatype Part = Part(text: string)

  datatype ChatMessage = ChatMessage(role: Role, parts: seq<Part>)
}
