/** The operator dashboard's own logic: credential rules, the file-backed
    account store with signup, the login session, and the file-backed
    prediction-history log. Each store holds `None` while its file does not
    exist. */
module Dashboard {
  import opened Wrappers
  import opened Ranking
  import PredictionService

  // ---------------------------------------------------------------------------
  // Credential rules
  // ---------------------------------------------------------------------------

  const UsernamePrefix := "admin_"
  const MinUsernameLength: nat := 8
  const MinPasswordLength: nat := 6

  predicate IsDigit(c: char) {
    '0' <= c <= '9'
  }

  /** `validate_username`: starts with `admin_` and has at least 8 characters. */
  function ValidUsername(u: string): (ok: bool)
    ensures ok <==> |u| >= MinUsernameLength && forall i :: 0 <= i < |UsernamePrefix| ==> u[i] == UsernamePrefix[i]
  {
    UsernamePrefix <= u && |u| >= MinUsernameLength
  }

  /** `validate_password`: at least 6 characters, one of them a digit. */
  function ValidPassword(p: string): (ok: bool)
    ensures ok <==> |p| >= MinPasswordLength && exists i :: 0 <= i < |p| && IsDigit(p[i])
  {
    |p| >= MinPasswordLength && exists c :: c in p && IsDigit(c)
  }

  /** The rules on four sample credentials. */
  lemma CredentialExamples()
    ensures !ValidUsername("adm_123") && ValidUsername("admin_123")
    ensures !ValidPassword("abcdef") && ValidPassword("abc123")
  {
    assert IsDigit("abc123"[3]);
    assert "adm_123"[3] != UsernamePrefix[3];
  }

  // ---------------------------------------------------------------------------
  // Account store and signup
  // ---------------------------------------------------------------------------

  /** The `{"password": ...}` value stored under a username. */
  datatype Account = Account(password: string)

  type Users = map<string, Account>

  /** The account store, `users.json`. */
  class UserStore {
    var file: Option<Users>

    /** No file yet. */
    constructor()
      ensures file == None
    {
      file := None;
    }

    /** `load_users`: the stored accounts, none when the file is absent. */
    function Load(): (users: Users)
      reads this
      ensures file.None? ==> users == map[]
      ensures file.Some? ==> users == file.value
    {
      file.GetOr(map[])
    }

    /** `save_users`: rewrites the whole file. */
    method Save(users: Users)
      modifies this
      ensures file == Some(users)
    {
      file := Some(users);
    }
  }

  datatype SignupOutcome = SignedUp | BadUsername | BadPassword | UsernameTaken

  /** The signup decision: the username rule, then the password rule, then
      the duplicate check; the first failure is reported. */
  function CheckSignup(users: Users, user: string, pass: string): (r: SignupOutcome)
    ensures r == BadUsername <==> !ValidUsername(user)
    ensures r == BadPassword <==> ValidUsername(user) && !ValidPassword(pass)
    ensures r == UsernameTaken <==> ValidUsername(user) && ValidPassword(pass) && user in users
    ensures r == SignedUp <==> ValidUsername(user) && ValidPassword(pass) && user !in users
  {
    if !ValidUsername(user) then BadUsername
    else if !ValidPassword(pass) then BadPassword
    else if user in users then UsernameTaken
    else SignedUp
  }

  /** The signup button: on success the store gains exactly `user` with
      `pass`; on any failure the store is not written. */
  method Signup(store: UserStore, user: string, pass: string) returns (r: SignupOutcome)
    modifies store
    ensures r == CheckSignup(old(store.Load()), user, pass)
    ensures r == SignedUp ==> store.file == Some(old(store.Load())[user := Account(pass)])
    ensures r != SignedUp ==> store.file == old(store.file)
  {
    var users := store.Load();
    if !ValidUsername(user) {
      r := BadUsername;
    } else if !ValidPassword(pass) {
      r := BadPassword;
    } else if user in users {
      r := UsernameTaken;
    } else {
      users := users[user := Account(pass)];
      store.Save(users);
      r := SignedUp;
    }
  }

  /** Every stored account satisfies both credential rules. */
  predicate AccountsValid(users: Users) {
    forall u :: u in users ==> ValidUsername(u) && ValidPassword(users[u].password)
  }

  /** A successful signup adds one account and changes no other, and keeps
      every stored account within the rules. */
  lemma SignupAddsOneAccount(users: Users, user: string, pass: string)
    requires CheckSignup(users, user, pass) == SignedUp
    ensures users[user := Account(pass)].Keys == users.Keys + {user}
    ensures |users[user := Account(pass)]| == |users| + 1
    ensures forall u :: u in users ==> users[user := Account(pass)][u] == users[u]
    ensures AccountsValid(users) ==> AccountsValid(users[user := Account(pass)])
  {
  }

  /** A taken username is never overwritten. */
  lemma SignupNeverOverwrites(users: Users, user: string, pass: string)
    requires user in users
    ensures CheckSignup(users, user, pass) != SignedUp
  {
  }

  // ---------------------------------------------------------------------------
  // Session
  // ---------------------------------------------------------------------------

  /** The login check: an existing username whose stored password equals the
      given one exactly. */
  predicate Authenticates(users: Users, user: string, pass: string)
    ensures Authenticates(users, user, pass) ==> user in users && users[user].password == pass
    ensures user !in users ==> !Authenticates(users, user, pass)
  {
    user in users && users[user].password == pass
  }

  /** Newly signed-up credentials log in, and nobody else's login changes. */
  lemma SignupThenLogin(users: Users, user: string, pass: string)
    requires CheckSignup(users, user, pass) == SignedUp
    ensures Authenticates(users[user := Account(pass)], user, pass)
    ensures forall u, p :: u != user ==>
              (Authenticates(users[user := Account(pass)], u, p) <==> Authenticates(users, u, p))
  {
  }

  /** With a store that only signup has written, whoever logs in has a valid
      username and password. */
  lemma LoginImpliesValidCredentials(users: Users, user: string, pass: string)
    requires AccountsValid(users)
    requires Authenticates(users, user, pass)
    ensures ValidUsername(user) && ValidPassword(pass)
  {
  }

  /** `st.session_state`: the `logged_in` and `username` fields. */
  class Session {
    var loggedIn: bool
    var username: string

    /** The two states: logged out with no name, or logged in. */
    ghost predicate Valid()
      reads this
    {
      !loggedIn ==> username == ""
    }

    /** A new session is logged out. */
    constructor()
      ensures Valid()
      ensures !loggedIn && username == ""
    {
      loggedIn := false;
      username := "";
    }

    /** The login button, against the accounts loaded for this run. */
    method Login(users: Users, user: string, pass: string) returns (ok: bool)
      requires Valid()
      modifies this
      ensures Valid()
      ensures ok <==> user in users && users[user].password == pass
      ensures ok ==> loggedIn && username == user
      ensures !ok ==> loggedIn == old(loggedIn) && username == old(username)
    {
      ok := Authenticates(users, user, pass);
      if ok {
        loggedIn := true;
        username := user;
      }
    }

    /** The logout menu entry. */
    method Logout()
      modifies this
      ensures Valid()
      ensures !loggedIn && username == ""
    {
      loggedIn := false;
      username := "";
    }
  }

  // ---------------------------------------------------------------------------
  // Prediction history
  // ---------------------------------------------------------------------------

  /** One history record; `probability` is the churn probability in percent. */
  datatype HistoryEntry = HistoryEntry(
    timestamp: string,
    admin: string,
    customer: string,
    probability: real,
    features: seq<Attribution>)

  /** The history log, `prediction_history.json`. */
  class HistoryStore {
    var file: Option<seq<HistoryEntry>>

    /** No file yet. */
    constructor()
      ensures file == None
    {
      file := None;
    }

    /** `load_history`: the stored log, empty when the file is absent. */
    function Load(): (history: seq<HistoryEntry>)
      reads this
      ensures file.None? ==> history == []
      ensures file.Some? ==> history == file.value
    {
      file.GetOr([])
    }

    /** `save_to_history`: reads the log (empty when absent), appends, and
        rewrites the whole file. */
    method Append(entry: HistoryEntry)
      modifies this
      ensures file == Some(old(Load()) + [entry])
      ensures Load() == old(Load()) + [entry]
    {
      var history: seq<HistoryEntry> := [];
      if file.Some? {
        history := file.value;
      }
      history := history + [entry];
      file := Some(history);
    }

    /** `clear_history`: removes the file if it exists. The result does not
        depend on the old state, so clearing twice is clearing once. */
    method Clear()
      modifies this
      ensures file == None
      ensures Load() == []
    {
      if file.Some? {
        file := None;
      }
    }
  }

  /** The entry shown in detail on the history page: the last one, and none
      when the log is empty. */
  function Latest(history: seq<HistoryEntry>): (r: Option<HistoryEntry>)
    ensures r.None? <==> history == []
    ensures r.Some? ==> r.value in history
  {
    if history == [] then None else Some(history[|history| - 1])
  }

  /** After an entry is saved it is the one shown as latest. */
  lemma LatestAfterAppend(history: seq<HistoryEntry>, entry: HistoryEntry)
    ensures Latest(history + [entry]) == Some(entry)
  {
  }

  /** Appending to a fresh store and loading it back gives exactly the
      appended entries, in order. */
  method AppendsLoadBack(entries: seq<HistoryEntry>) returns (loaded: seq<HistoryEntry>)
    ensures loaded == entries
  {
    var store := new HistoryStore();
    for k := 0 to |entries|
      invariant store.Load() == entries[..k]
    {
      store.Append(entries[k]);
      assert entries[..k + 1] == entries[..k] + [entries[k]];
    }
    assert entries[..|entries|] == entries;
    loaded := store.Load();
  }

  // ---------------------------------------------------------------------------
  // Recording a batch of predictions
  // ---------------------------------------------------------------------------

  /** The numeric value of a digit. */
  function DigitValue(c: char): nat
    requires IsDigit(c)
  {
    (c as int) - ('0' as int)
  }

  /** The number a string of decimal digits denotes. */
  function DecimalValue(s: string): nat
    requires forall i :: 0 <= i < |s| ==> IsDigit(s[i])
  {
    if s == [] then 0 else DecimalValue(s[..|s| - 1]) * 10 + DigitValue(s[|s| - 1])
  }

  /** Python's `str(n)` for a natural number: its decimal numeral. */
  function NatToString(n: nat): (s: string)
    ensures |s| >= 1
    ensures forall i :: 0 <= i < |s| ==> IsDigit(s[i])
    ensures DecimalValue(s) == n
    ensures |s| > 1 ==> s[0] != '0'
  {
    var d := ['0', '1', '2', '3', '4', '5', '6', '7', '8', '9'][n % 10];
    assert DigitValue(d) == n % 10;
    if n < 10 then [d]
    else
      var prefix := NatToString(n / 10);
      assert (prefix + [d])[..|prefix|] == prefix;
      prefix + [d]
  }

  const CustomerPrefix := "Customer "

  /** `f"Customer {i+1}"`: the label of the `i`-th customer (0-based) of an
      uploaded file. */
  function CustomerLabel(i: nat): (text: string)
    ensures text == CustomerPrefix + NatToString(i + 1)
    ensures |text| > |CustomerPrefix| && text[|CustomerPrefix|] != '0'
    ensures CustomerPrefix <= text
    ensures forall k :: |CustomerPrefix| <= k < |text| ==> IsDigit(text[k])
    ensures DecimalValue(text[|CustomerPrefix|..]) == i + 1
  {
    var numeral := NatToString(i + 1);
    assert (CustomerPrefix + numeral)[|CustomerPrefix|..] == numeral;
    CustomerPrefix + numeral
  }

  /** The history entries recorded for a batch response; `timestamps[i]` is
      the clock reading taken when entry `i` is saved. */
  function BatchEntries(admin: string, timestamps: seq<string>, predictions: seq<PredictionService.PredictionResult>)
    : (entries: seq<HistoryEntry>)
    requires |timestamps| == |predictions|
    ensures |entries| == |predictions|
    ensures forall i :: 0 <= i < |entries| ==>
              && entries[i].timestamp == timestamps[i]
              && entries[i].admin == admin
              && entries[i].customer == CustomerLabel(i)
              && entries[i].probability == predictions[i].churnProbability * 100.0
              && entries[i].features == predictions[i].topFeatures
  {
    seq(|predictions|, i requires 0 <= i < |predictions| =>
      HistoryEntry(timestamps[i], admin, CustomerLabel(i),
                   predictions[i].churnProbability * 100.0, predictions[i].topFeatures))
  }

  /** The per-customer loop after a successful batch request: one history
      entry per prediction, appended in response order. */
  method RecordPredictions(
    store: HistoryStore,
    admin: string,
    timestamps: seq<string>,
    predictions: seq<PredictionService.PredictionResult>)
    requires |timestamps| == |predictions|
    modifies store
    ensures store.Load() == old(store.Load()) + BatchEntries(admin, timestamps, predictions)
  {
    ghost var before := store.Load();
    var entries := BatchEntries(admin, timestamps, predictions);
    for i := 0 to |predictions|
      invariant store.Load() == before + entries[..i]
    {
      var pred := predictions[i];
      var entry := HistoryEntry(timestamps[i], admin, CustomerLabel(i), pred.churnProbability * 100.0, pred.topFeatures);
      assert entry == entries[i];
      store.Append(entry);
      assert entries[..i + 1] == entries[..i] + [entries[i]];
    }
    assert entries[..|predictions|] == entries;
  }
}
