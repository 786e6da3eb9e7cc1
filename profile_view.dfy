/** The profile screen: the sign-up / sign-in form shown when nobody is
    signed in, the edit form shown for the active user, and the two
    toggles (form mode and language). */
module ProfileView {
  import opened Types
  import opened App
  import opened Language

  datatype AuthMode = SignUpMode | SignInMode

  /** The mode toggle: sign-up and sign-in swap. */
  function Flip(m: AuthMode): (r: AuthMode)
    ensures r != m
  {
    if m == SignUpMode then SignInMode else SignUpMode
  }

  lemma FlipTwice(m: AuthMode)
    ensures Flip(Flip(m)) == m
  {
  }

  /** The six text boxes of the form. */
  datatype Fields = Fields(
    name: string,
    password: string,
    address: string,
    floorNumber: string,
    apartmentNumber: string,
    meterNumber: string)

  /** Every text box holds something (`name && password && ...`). */
  predicate AllFilled(f: Fields) {
    f.name != "" && f.password != "" && f.address != "" && f.floorNumber != ""
    && f.apartmentNumber != "" && f.meterNumber != ""
  }

  /** `value || fallback` over strings. */
  function OrDefault(value: Option<string>, fallback: string): (r: string)
    requires fallback != ""
    ensures r != ""
    ensures value.Some? && value.value != "" ==> r == value.value
    ensures !(value.Some? && value.value != "") ==> r == fallback
  {
    if value.Some? && value.value != "" then value.value else fallback
  }

  function FieldOf(p: Option<UserProfile>, select: UserProfile -> string): Option<string> {
    if p.Some? then Some(select(p.value)) else None
  }

  /** The form's starting contents: each field of the existing profile when
      it is not empty, and the built-in sample value otherwise. */
  function InitialFields(existing: Option<UserProfile>): (f: Fields)
    ensures AllFilled(f)
    ensures existing.Some? && existing.value.name != "" ==> f.name == existing.value.name
    ensures existing.Some? && existing.value.password != "" ==> f.password == existing.value.password
    ensures existing.Some? && existing.value.address != "" ==> f.address == existing.value.address
    ensures existing.Some? && existing.value.floorNumber != "" ==> f.floorNumber == existing.value.floorNumber
    ensures existing.Some? && existing.value.apartmentNumber != "" ==> f.apartmentNumber == existing.value.apartmentNumber
    ensures existing.Some? && existing.value.waterMeterNumber != "" ==> f.meterNumber == existing.value.waterMeterNumber
    ensures existing.None? ==> f == Fields("kaream mohamed ahmed", "0123456", "almatrya- cairo-egypt", "2", "6", "6003030")
  {
    Fields(
      OrDefault(FieldOf(existing, (p: UserProfile) => p.name), "kaream mohamed ahmed"),
      OrDefault(FieldOf(existing, (p: UserProfile) => p.password), "0123456"),
      OrDefault(FieldOf(existing, (p: UserProfile) => p.address), "almatrya- cairo-egypt"),
      OrDefault(FieldOf(existing, (p: UserProfile) => p.floorNumber), "2"),
      OrDefault(FieldOf(existing, (p: UserProfile) => p.apartmentNumber), "6"),
      OrDefault(FieldOf(existing, (p: UserProfile) => p.waterMeterNumber), "6003030"))
  }

  /** The account data a sign-up sends: the meter box becomes the
      profile's `waterMeterNumber`. */
  function SignUpData(f: Fields): (d: ProfileData)
    ensures d.name == f.name && d.password == f.password && d.address == f.address
    ensures d.floorNumber == f.floorNumber && d.apartmentNumber == f.apartmentNumber
    ensures d.waterMeterNumber == f.meterNumber
  {
    ProfileData(f.name, f.password, f.address, f.apartmentNumber, f.floorNumber, f.meterNumber)
  }

  /** Which call an auth submit makes. */
  datatype AuthRequest =
    | NoRequest
    | SignUpRequest(data: ProfileData)
    | SignInRequest(name: string, password: string)

  /** The auth submit's gate: sign-up needs all six boxes, sign-in only the
      name and the password. */
  function AuthRequestFor(mode: AuthMode, f: Fields): AuthRequest {
    match mode
    case SignUpMode => if AllFilled(f) then SignUpRequest(SignUpData(f)) else NoRequest
    case SignInMode => if f.name != "" && f.password != "" then SignInRequest(f.name, f.password) else NoRequest
  }

  /** A sign-up call happens exactly in sign-up mode with every box filled,
      and a sign-in call exactly in sign-in mode with a name and a password;
      sign-in ignores the other four boxes. */
  lemma AuthGate(mode: AuthMode, f: Fields)
    ensures AuthRequestFor(mode, f).SignUpRequest? <==> mode == SignUpMode && AllFilled(f)
    ensures AuthRequestFor(mode, f).SignInRequest? <==> mode == SignInMode && f.name != "" && f.password != ""
    ensures AuthRequestFor(mode, f).SignUpRequest? ==> AuthRequestFor(mode, f).data == SignUpData(f)
    ensures AuthRequestFor(mode, f).SignInRequest? ==>
              AuthRequestFor(mode, f) == SignInRequest(f.name, f.password)
    ensures forall g: Fields :: g.name == f.name && g.password == f.password ==>
              AuthRequestFor(SignInMode, g) == AuthRequestFor(SignInMode, f)
  {
  }

  /** The form as first shown always passes its gate. */
  lemma InitialFormPassesGate(existing: Option<UserProfile>, mode: AuthMode)
    ensures AuthRequestFor(mode, InitialFields(existing)) != NoRequest
  {
  }

  /** The error the form shows after an auth call (`if (error)`): the call's
      error when it is truthy; otherwise none, since the submit cleared it
      first. */
  function ShownError(error: Option<Node>): Option<Node> {
    if error.Some? && Truthy(error.value) then error else None
  }

  /** The profile an edit submit sends: the existing profile with the six
      boxes in place of its fields, when there is one and every box is
      filled. */
  function UpdateFor(existing: Option<UserProfile>, f: Fields): (u: Option<UserProfile>)
    ensures u.Some? <==> existing.Some? && AllFilled(f)
    ensures u.Some? ==> u.value == WithId(SignUpData(f), existing.value.id)
  {
    if existing.Some? && AllFilled(f) then
      Some(existing.value.(name := f.name, password := f.password, address := f.address,
                           floorNumber := f.floorNumber, apartmentNumber := f.apartmentNumber,
                           waterMeterNumber := f.meterNumber))
    else None
  }

  /** An edit keeps the profile's id, and editing with the profile's own
      values changes nothing. */
  lemma UpdateKeepsId(p: UserProfile, f: Fields)
    requires AllFilled(f)
    ensures UpdateFor(Some(p), f).value.id == p.id
    ensures f == Fields(p.name, p.password, p.address, p.floorNumber, p.apartmentNumber, p.waterMeterNumber) ==>
              UpdateFor(Some(p), f) == Some(p)
  {
  }

  /** The profile screen's state. */
  class ProfileForm {
    var authMode: AuthMode
    var authError: Option<Node>
    var fields: Fields
    var existingProfile: Option<UserProfile>

    /** The screen as first shown: sign-up mode, no error, the boxes filled
        from the profile or the samples. */
    constructor (existing: Option<UserProfile>)
      ensures authMode == SignUpMode && authError == None
      ensures fields == InitialFields(existing) && existingProfile == existing
    {
      authMode := SignUpMode;
      authError := None;
      fields := InitialFields(existing);
      existingProfile := existing;
    }

    /** Typing into the boxes. */
    method Edit(f: Fields)
      modifies this
      ensures fields == f
      ensures authMode == old(authMode) && authError == old(authError) && existingProfile == old(existingProfile)
    {
      fields := f;
    }

    /** `handleAuthSubmit`: clear the error, make the call the gate allows,
        and show the error it returns, if any, in the current language
        `lang`. */
    method HandleAuthSubmit(app: AppState, newId: string, tr: Translations, lang: Lang)
      requires app.Valid()
      modifies this, app
      ensures app.Valid()
      ensures authMode == old(authMode) && fields == old(fields) && existingProfile == old(existingProfile)
      ensures AuthRequestFor(authMode, fields) == NoRequest ==> authError == None && unchanged(app)
      ensures AuthRequestFor(authMode, fields).SignUpRequest? ==>
        var d := AuthRequestFor(authMode, fields).data;
        && (authError.Some? <==> Find(old(app.users), d.name, None).Some?)
        && (authError.Some? ==> authError == Some(Translate(tr, lang, SignUpErrorKey)) && unchanged(app))
        && (authError.None? ==>
              && app.users == old(app.users) + [WithId(d, newId)]
              && app.activeProfile == Some(WithId(d, newId))
              && app.Selected(Some(WithId(d, newId)), old(app.historyStore), old(app.rewardStore))
              && app.activePage == HomePage)
      ensures AuthRequestFor(authMode, fields).SignInRequest? ==>
        && app.users == old(app.users)
        && (authError.None? <==> Find(old(app.users), fields.name, Some(fields.password)).Some?)
        && (authError.Some? ==> authError == Some(Translate(tr, lang, SignInErrorKey)) && unchanged(app))
        && (authError.None? ==>
              && app.activeProfile == Some(old(app.users)[Find(old(app.users), fields.name, Some(fields.password)).value])
              && app.Selected(Some(old(app.users)[Find(old(app.users), fields.name, Some(fields.password)).value]),
                              old(app.historyStore), old(app.rewardStore))
              && app.activePage == HomePage)
    {
      authError := None;
      var error: Option<Node> := None;
      var request := AuthRequestFor(authMode, fields);
      match request {
        case NoRequest =>
        case SignUpRequest(data) =>
          error := app.SignUp(data, newId, tr, lang);
        case SignInRequest(name, password) =>
          error := app.SignIn(name, password, tr, lang);
      }
      authError := ShownError(error);
    }

    /** `handleUpdateSubmit`: send the edited profile when the gate allows. */
    method HandleUpdateSubmit(app: AppState)
      requires app.Valid()
      modifies app
      ensures app.Valid()
      ensures UpdateFor(existingProfile, fields).None? ==> unchanged(app)
      ensures UpdateFor(existingProfile, fields).Some? ==>
        var u := UpdateFor(existingProfile, fields).value;
        && app.users == ReplaceById(old(app.users), u)
        && app.activeProfile == Some(u)
        && app.Selected(Some(u), old(app.historyStore), old(app.rewardStore))
        && app.activePage == HomePage
    {
      var u := UpdateFor(existingProfile, fields);
      if u.Some? {
        app.UpdateProfile(u.value);
      }
    }

    /** The link under the auth form. */
    method ToggleAuthMode()
      modifies this
      ensures authMode == Flip(old(authMode))
      ensures authError == old(authError) && fields == old(fields) && existingProfile == old(existingProfile)
    {
      authMode := Flip(authMode);
    }

    /** `toggleLanguage`: switch English and Arabic. */
    method ToggleLanguage(ctx: LanguageProvider)
      modifies ctx
      ensures ctx.Valid()
      ensures ctx.language == Toggle(old(ctx.language)) && ctx.stored == Some(ctx.language)
    {
      ctx.SetLanguage(Toggle(ctx.language));
    }
  }
}
