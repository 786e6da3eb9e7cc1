/** The application shell: the user registry (sign-up, sign-in, sign-out,
    profile update), the active user's consumption ledger and reward list,
    and their per-user persistence in browser storage, modelled as two maps
    from storage key to stored list. */
module App {
  import opened Types
  import opened Text
  import Language

  datatype Page = HomePage | TipsPage | RewardsPage | ChatPage | AboutPage | ProfilePage

  const HistoryPrefix: string := "consumptionHistory_"
  const RewardsPrefix: string := "userRewards_"

  /** The storage key of a user's consumption history. */
  function HistoryKey(id: string): string { HistoryPrefix + id }

  /** The storage key of a user's reward list. */
  function RewardsKey(id: string): string { RewardsPrefix + id }

  /** Distinct users never share a storage key, and a history key is never
      a rewards key, so the per-user partitions cannot overwrite each other. */
  lemma KeysSeparateUsers(a: string, b: string)
    ensures HistoryKey(a) == HistoryKey(b) <==> a == b
    ensures RewardsKey(a) == RewardsKey(b) <==> a == b
    ensures HistoryKey(a) != RewardsKey(b)
  {
    if HistoryKey(a) == HistoryKey(b) {
      assert a == HistoryKey(a)[|HistoryPrefix|..];
    }
    if RewardsKey(a) == RewardsKey(b) {
      assert a == RewardsKey(a)[|RewardsPrefix|..];
    }
    assert HistoryKey(a)[0] == 'c' && RewardsKey(b)[0] == 'u';
  }

  /** The translation keys of the two messages the registry returns; it
      returns their text in the current language. */
  const SignUpErrorKey: string := "profileErrorSignUp"
  const SignInErrorKey: string := "profileErrorSignIn"

  /** A user matches a name case-insensitively and, when one is given, a
      password exactly. */
  predicate Matches(u: UserProfile, name: string, password: Option<string>) {
    SameLower(u.name, name) && (password.None? || u.password == password.value)
  }

  /** `users.find(...)` from position `i` on: the first matching index. */
  function FindFrom(users: seq<UserProfile>, name: string, password: Option<string>, i: nat): (r: Option<nat>)
    requires i <= |users|
    ensures r.Some? ==> i <= r.value < |users| && Matches(users[r.value], name, password)
    ensures r.Some? ==> forall j :: i <= j < r.value ==> !Matches(users[j], name, password)
    ensures r.None? <==> forall j :: i <= j < |users| ==> !Matches(users[j], name, password)
    decreases |users| - i
  {
    if i == |users| then None
    else if Matches(users[i], name, password) then Some(i)
    else FindFrom(users, name, password, i + 1)
  }

  /** The index of the first user matching, if any. */
  function Find(users: seq<UserProfile>, name: string, password: Option<string>): (r: Option<nat>)
    ensures r.Some? ==> r.value < |users| && Matches(users[r.value], name, password)
    ensures r.Some? ==> forall j :: 0 <= j < r.value ==> !Matches(users[j], name, password)
    ensures r.None? <==> forall j :: 0 <= j < |users| ==> !Matches(users[j], name, password)
  {
    FindFrom(users, name, password, 0)
  }

  /** No two registered users share a name up to case. */
  predicate NamesUnique(users: seq<UserProfile>) {
    forall i, j :: 0 <= i < j < |users| ==> !SameLower(users[i].name, users[j].name)
  }

  /** Appending a user whose name no one holds up to case keeps the names unique. */
  lemma AppendKeepsNamesUnique(users: seq<UserProfile>, u: UserProfile)
    requires NamesUnique(users)
    requires Find(users, u.name, None).None?
    ensures NamesUnique(users + [u])
  {
    var us := users + [u];
    forall i, j | 0 <= i < j < |us|
      ensures !SameLower(us[i].name, us[j].name)
    {
      if j == |users| {
        assert !Matches(users[i], u.name, None);
      }
    }
  }

  /** `prevUsers.map(u => u.id === updated.id ? updated : u)`. */
  function ReplaceById(users: seq<UserProfile>, updated: UserProfile): (r: seq<UserProfile>)
    ensures |r| == |users|
    ensures forall i :: 0 <= i < |users| && users[i].id == updated.id ==> r[i] == updated
    ensures forall i :: 0 <= i < |users| && users[i].id != updated.id ==> r[i] == users[i]
  {
    if users == [] then []
    else [if users[0].id == updated.id then updated else users[0]] + ReplaceById(users[1..], updated)
  }

  /** Updating the same profile twice is the same as updating it once. */
  lemma ReplaceByIdIdempotent(users: seq<UserProfile>, updated: UserProfile)
    ensures ReplaceById(ReplaceById(users, updated), updated) == ReplaceById(users, updated)
  {
    var once := ReplaceById(users, updated);
    var twice := ReplaceById(once, updated);
    assert forall i :: 0 <= i < |users| ==> twice[i] == once[i];
  }

  /** A profile update does not re-check names: renaming one user to another
      user's name, up to case, leaves two users sharing a name. */
  lemma UpdateCanBreakNamesUnique()
    ensures exists users: seq<UserProfile>, updated: UserProfile ::
      NamesUnique(users) && !NamesUnique(ReplaceById(users, updated))
  {
    var alice := UserProfile("1", "Alice", "pw", "", "", "", "");
    var bob := UserProfile("2", "Bob", "pw", "", "", "", "");
    var renamed := bob.(name := "ALICE");
    var users := [alice, bob];
    assert Lower(alice.name) == "alice" && Lower(bob.name) == "bob";
    assert NamesUnique(users);
    var after := ReplaceById(users, renamed);
    assert after[0] == alice && after[1] == renamed;
    assert Lower(renamed.name) == "alice";
    assert !NamesUnique(after);
  }

  /** A stored list, or the empty list when nothing is stored under `key`. */
  function Load<T>(store: map<string, seq<T>>, key: string): seq<T> {
    if key in store then store[key] else []
  }

  function HistoryKeyOf(p: Option<UserProfile>): Option<string> {
    if p.Some? then Some(HistoryKey(p.value.id)) else None
  }

  function RewardsKeyOf(p: Option<UserProfile>): Option<string> {
    if p.Some? then Some(RewardsKey(p.value.id)) else None
  }

  /** The save effect: with an active user, `value` is written under its
      key; every other stored list is left as it was. */
  function Persist<T>(store: map<string, seq<T>>, key: Option<string>, value: seq<T>): (s: map<string, seq<T>>)
    ensures key.Some? ==> key.value in s && s[key.value] == value
    ensures forall k :: k in store && (key.None? || k != key.value) ==> k in s && s[k] == store[k]
    ensures s.Keys == store.Keys + (if key.Some? then {key.value} else {})
  {
    if key.Some? then store[key.value := value] else store
  }

  /** Either a single record or a batch, as `handleAddRecord` accepts. */
  datatype RecordArg = One(record: ConsumptionRecord) | Many(records: seq<ConsumptionRecord>)

  /** `Array.isArray(records) ? records : [records]`. */
  function AsBatch(arg: RecordArg): seq<ConsumptionRecord> {
    match arg
    case One(r) => [r]
    case Many(rs) => rs
  }

  class AppState {
    var users: seq<UserProfile>
    var activeProfile: Option<UserProfile>
    var history: seq<ConsumptionRecord>
    var rewards: seq<Reward>
    var activePage: Page
    var historyStore: map<string, seq<ConsumptionRecord>>
    var rewardStore: map<string, seq<Reward>>

    /** What is shown for the active user is what is stored under its keys. */
    ghost predicate Valid()
      reads this
    {
      activeProfile.Some? ==>
        && HistoryKey(activeProfile.value.id) in historyStore
        && historyStore[HistoryKey(activeProfile.value.id)] == history
        && RewardsKey(activeProfile.value.id) in rewardStore
        && rewardStore[RewardsKey(activeProfile.value.id)] == rewards
    }

    /** After the active profile became `p`: its lists were loaded from the
        stores `hs0` and `rs0` (empty when nothing is stored, or when there is
        no active user) and written back under its keys. */
    ghost predicate Selected(p: Option<UserProfile>, hs0: map<string, seq<ConsumptionRecord>>, rs0: map<string, seq<Reward>>)
      reads this
    {
      && activeProfile == p
      && history == (if p.Some? then Load(hs0, HistoryKey(p.value.id)) else [])
      && rewards == (if p.Some? then Load(rs0, RewardsKey(p.value.id)) else [])
      && historyStore == Persist(hs0, HistoryKeyOf(p), history)
      && rewardStore == Persist(rs0, RewardsKeyOf(p), rewards)
    }

    /** The application after the splash screen: the registry and the active
        profile as stored, the active user's lists loaded, and the profile
        page shown when nobody is signed in. */
    constructor (storedUsers: seq<UserProfile>, storedActive: Option<UserProfile>,
                 hs: map<string, seq<ConsumptionRecord>>, rs: map<string, seq<Reward>>)
      ensures Valid()
      ensures users == storedUsers
      ensures Selected(storedActive, hs, rs)
      ensures activePage == (if storedActive.None? then ProfilePage else HomePage)
    {
      users := storedUsers;
      activeProfile := storedActive;
      activePage := if storedActive.None? then ProfilePage else HomePage;
      history, rewards := [], [];
      historyStore, rewardStore := hs, rs;
      new;
      Select(storedActive);
    }

    /** The load effect that runs when the active profile changes, followed
        by the save effects it triggers. */
    method Select(p: Option<UserProfile>)
      modifies this
      ensures Valid()
      ensures Selected(p, old(historyStore), old(rewardStore))
      ensures users == old(users) && activePage == old(activePage)
    {
      activeProfile := p;
      if p.Some? {
        history := Load(historyStore, HistoryKey(p.value.id));
        rewards := Load(rewardStore, RewardsKey(p.value.id));
      } else {
        history, rewards := [], [];
      }
      historyStore := Persist(historyStore, HistoryKeyOf(p), history);
      rewardStore := Persist(rewardStore, RewardsKeyOf(p), rewards);
    }

    /** `handleSignUp`: refuse a name already registered up to case, with
        the sign-up error translated into the current language `lang`;
        otherwise register the profile with the fresh id and sign it in. */
    method SignUp(data: ProfileData, newId: string, tr: Language.Translations, lang: Language.Lang)
      returns (error: Option<Language.Node>)
      requires Valid()
      modifies this
      ensures Valid()
      ensures error.Some? <==> Find(old(users), data.name, None).Some?
      ensures error.Some? ==> error.value == Language.Translate(tr, lang, SignUpErrorKey)
      ensures error.Some? ==> Language.Truthy(error.value)
      ensures error.Some? ==> unchanged(this)
      ensures error.None? ==> users == old(users) + [WithId(data, newId)]
      ensures error.None? ==> Selected(Some(WithId(data, newId)), old(historyStore), old(rewardStore))
      ensures error.None? ==> activePage == HomePage
      ensures NamesUnique(old(users)) ==> NamesUnique(users)
    {
      if Find(users, data.name, None).Some? {
        Language.TranslateTruthy(tr, lang, SignUpErrorKey);
        return Some(Language.Translate(tr, lang, SignUpErrorKey));
      }
      var newUser := WithId(data, newId);
      if NamesUnique(users) {
        AppendKeepsNamesUnique(users, newUser);
      }
      users := users + [newUser];
      Select(Some(newUser));
      activePage := HomePage;
      error := None;
    }

    /** `handleSignIn`: sign in the first user whose name matches up to case
        and whose password matches exactly; otherwise return the sign-in
        error translated into the current language `lang`. */
    method SignIn(name: string, password: string, tr: Language.Translations, lang: Language.Lang)
      returns (error: Option<Language.Node>)
      requires Valid()
      modifies this
      ensures Valid()
      ensures users == old(users)
      ensures error.None? <==> Find(old(users), name, Some(password)).Some?
      ensures error.Some? ==> error.value == Language.Translate(tr, lang, SignInErrorKey) && unchanged(this)
      ensures error.Some? ==> Language.Truthy(error.value)
      ensures error.None? ==>
        && Selected(Some(old(users)[Find(old(users), name, Some(password)).value]), old(historyStore), old(rewardStore))
        && activePage == HomePage
    {
      var found := Find(users, name, Some(password));
      if found.None? {
        Language.TranslateTruthy(tr, lang, SignInErrorKey);
        return Some(Language.Translate(tr, lang, SignInErrorKey));
      }
      Select(Some(users[found.value]));
      activePage := HomePage;
      error := None;
    }

    /** `handleSignOut`: nobody is active, the shown lists are emptied and
        the profile page comes up; the stores keep every user's lists. */
    method SignOut()
      requires Valid()
      modifies this
      ensures Valid()
      ensures users == old(users)
      ensures Selected(None, old(historyStore), old(rewardStore))
      ensures historyStore == old(historyStore) && rewardStore == old(rewardStore)
      ensures activePage == ProfilePage
    {
      Select(None);
      activePage := ProfilePage;
    }

    /** `handleUpdateProfile`: replace every user with the same id and make
        the updated profile the active one. */
    method UpdateProfile(updated: UserProfile)
      requires Valid()
      modifies this
      ensures Valid()
      ensures users == ReplaceById(old(users), updated)
      ensures Selected(Some(updated), old(historyStore), old(rewardStore))
      ensures activePage == HomePage
    {
      users := ReplaceById(users, updated);
      Select(Some(updated));
      activePage := HomePage;
    }

    /** `handleAddRecord`: append the record, or the batch in order, and save. */
    method AddRecords(arg: RecordArg)
      requires Valid()
      modifies this
      ensures Valid()
      ensures history == old(history) + AsBatch(arg)
      ensures historyStore == Persist(old(historyStore), HistoryKeyOf(activeProfile), history)
      ensures users == old(users) && activeProfile == old(activeProfile) && activePage == old(activePage)
      ensures rewards == old(rewards) && rewardStore == old(rewardStore)
    {
      history := history + AsBatch(arg);
      historyStore := Persist(historyStore, HistoryKeyOf(activeProfile), history);
    }

    /** `handleAddReward`: append the reward at the end and save. */
    method AddReward(reward: Reward)
      requires Valid()
      modifies this
      ensures Valid()
      ensures rewards == old(rewards) + [reward]
      ensures rewardStore == Persist(old(rewardStore), RewardsKeyOf(activeProfile), rewards)
      ensures users == old(users) && activeProfile == old(activeProfile) && activePage == old(activePage)
      ensures history == old(history) && historyStore == old(historyStore)
    {
      rewards := rewards + [reward];
      rewardStore := Persist(rewardStore, RewardsKeyOf(activeProfile), rewards);
    }
  }
}
