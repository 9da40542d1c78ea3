/**
  app_pemira.py: registration with KRS and selfie checks, student login,
  the ballot and the results page, over one browser session and the
  `users` and `votes` tables.
*/
module Pemira {

  import opened Wrappers
  import opened Verification
  import opened Store
  import opened Session

  /** The choices of the campus selectbox. */
  datatype Region = Region1 | Region2 | Region3

  function RegionLabel(r: Region): string
  {
    match r
    case Region1 => "Region 1"
    case Region2 => "Region 2"
    case Region3 => "Region 3"
  }

  /** The two buttons of the ballot page. */
  datatype Candidate = Paslon01 | Paslon02

  /** The value simpan_suara stores for each button. */
  function CandidateLabel(c: Candidate): string
  {
    match c
    case Paslon01 => "Kandidat 01"
    case Paslon02 => "Kandidat 02"
  }

  /** The registration form as submitted: the KRS upload is represented by the
      text of its pages, the camera widget by the image bytes. */
  datatype RegisterForm = RegisterForm(
    nama: string, npm: string, region: Region, kelas: string, password: string,
    krs: Option<seq<string>>, selfie: Option<Image>)

  /** The guard before any check runs: name, npm, password and both files
      present.  Region and class are not required. */
  predicate Complete(f: RegisterForm)
  {
    f.nama != "" && f.npm != "" && f.password != "" && f.krs.Some? && f.selfie.Some?
  }

  /** What pressing "PROSES VERIFIKASI" leads to. */
  datatype RegisterOutcome = Incomplete | VerificationFailed | DuplicateNpm | Registered

  /** The router at the end of app_pemira.py. */
  function Route(page: Page): (v: View)
    ensures v == Blank <==> page == Admin
    ensures v == LoginScreen <==> page == Login
    ensures v == RegisterScreen <==> page == Register
    ensures v == VotingScreen <==> page == Voting
    ensures v == AnalyticsScreen <==> page == Analytics
  {
    match page
    case Register => RegisterScreen
    case Login => LoginScreen
    case Voting => VotingScreen
    case Analytics => AnalyticsScreen
    case Admin => Blank
  }

  class App {
    /** hashlib.sha256(...).hexdigest(), left uninterpreted. */
    const hash: string -> string
    /** The Haar-cascade face detector: the number of regions found. */
    const detect: Image -> nat

    var users: Users
    var votes: seq<Vote>
    var page: Page
    var userAktif: Option<string>

    /** The tables are well formed, the session agrees with them, every
        vote is for a candidate of the ballot page, and there is exactly one
        vote row per voter whose flag is set. */
    ghost predicate Valid()
      reads this
    {
      && KeysMatch(users)
      && StatusesBinary(users)
      && VoteIdsSequential(votes)
      && (forall i :: 0 <= i < |votes| ==>
            votes[i].pilihan == CandidateLabel(Paslon01) || votes[i].pilihan == CandidateLabel(Paslon02))
      && SessionAgrees(page, userAktif, users)
      && page != Admin
      && Balanced(users, votes)
    }

    /** A fresh session over a fresh database. */
    constructor (hash: string -> string, detect: Image -> nat)
      ensures Valid()
      ensures this.hash == hash && this.detect == detect
      ensures users == map[] && votes == [] && page == Page.Login && userAktif == None
    {
      this.hash := hash;
      this.detect := detect;
      users := map[];
      votes := [];
      page := Page.Login;
      userAktif := None;
    }

    /** What st.session_state.page makes the router draw. */
    function Screen(): (v: View)
      reads this
      requires Valid()
      ensures v != Blank
    {
      Route(page)
    }

    /** The registration button: the completeness guard, both checks, then
        the INSERT under the npm key.  Any failure leaves the page on
        registration and the tables untouched. */
    method Register(form: RegisterForm) returns (outcome: RegisterOutcome)
      requires Valid() && page == Page.Register
      modifies this
      ensures Valid()
      ensures outcome == Incomplete <==> !Complete(form)
      ensures outcome == VerificationFailed <==>
        Complete(form) &&
        !(VerifyKrs(form.npm, form.nama, form.krs.value) && ValidateSelfie(form.selfie, detect).0)
      ensures outcome == DuplicateNpm <==>
        Complete(form) &&
        VerifyKrs(form.npm, form.nama, form.krs.value) && ValidateSelfie(form.selfie, detect).0 &&
        form.npm in old(users)
      ensures outcome == Registered <==>
        Complete(form) &&
        VerifyKrs(form.npm, form.nama, form.krs.value) && ValidateSelfie(form.selfie, detect).0 &&
        form.npm !in old(users)
      ensures outcome == Registered ==>
        users == old(users)[form.npm := User(form.npm, form.nama, RegionLabel(form.region), form.kelas,
                                             hash(form.password), 0)] &&
        page == Page.Login
      ensures outcome != Registered ==> users == old(users) && page == old(page)
      ensures votes == old(votes) && userAktif == old(userAktif)
    {
      if !Complete(form) {
        return Incomplete;
      }
      var krsValid := VerifyKrs(form.npm, form.nama, form.krs.value);
      var (faceValid, msg) := ValidateSelfie(form.selfie, detect);
      if !(krsValid && faceValid) {
        return VerificationFailed;
      }
      var hashedPw := hash(form.password);
      var row := User(form.npm, form.nama, RegionLabel(form.region), form.kelas, hashedPw, 0);
      var inserted := InsertUser(users, row);
      if inserted.None? {
        return DuplicateNpm;
      }
      InsertKeepsVoted(users, row);
      users := inserted.value;
      page := Page.Login;
      outcome := Registered;
    }

    /** The "Buat Akun" button of the login page. */
    method GoToRegister()
      requires Valid() && page == Page.Login
      modifies this
      ensures Valid()
      ensures page == Page.Register
      ensures users == old(users) && votes == old(votes) && userAktif == old(userAktif)
    {
      page := Page.Register;
    }

    /** The login button: a row must match npm and password digest; the vote
        flag then picks the ballot or the results.  Unknown npm and wrong
        password fail alike and change nothing. */
    method Login(loginNpm: string, loginPw: string) returns (ok: bool)
      requires Valid() && page == Page.Login
      modifies this
      ensures Valid()
      ensures ok <==> loginNpm in users && users[loginNpm].password == hash(loginPw)
      ensures ok ==> userAktif == Some(loginNpm) &&
                     page == (if users[loginNpm].statusVote == 1 then Analytics else Voting)
      ensures !ok ==> page == old(page) && userAktif == old(userAktif)
      ensures users == old(users) && votes == old(votes)
    {
      var hashedPw := hash(loginPw);
      var user := FindUser(users, loginNpm, hashedPw);
      if user.Some? {
        assert user.value == users[loginNpm];
        userAktif := Some(loginNpm);
        page := LandingPage(user.value);
        ok := true;
      } else {
        ok := false;
      }
    }

    /** simpan_suara: one vote row, the flag of the logged-in voter, the
        results page.  It does not look at the flag first. */
    method SimpanSuara(pilihan: string, waktu: string)
      requires VoteIdsSequential(votes)
      modifies this
      ensures VoteIdsSequential(votes)
      ensures votes == old(votes) + [Vote(|old(votes)| + 1, pilihan, waktu)]
      ensures users == MarkVoted(old(users), old(userAktif))
      ensures page == Analytics && userAktif == old(userAktif)
    {
      votes := votes + [Vote(|votes| + 1, pilihan, waktu)];
      users := MarkVoted(users, userAktif);
      page := Analytics;
    }

    /** A button of the ballot page.  Only a voter whose flag is 0 reaches
        this page, so the vote count and the voter count stay equal. */
    method Choose(c: Candidate, waktu: string)
      requires Valid() && page == Voting
      modifies this
      ensures Valid()
      ensures votes == old(votes) + [Vote(|old(votes)| + 1, CandidateLabel(c), waktu)]
      ensures users == MarkVoted(old(users), old(userAktif))
      ensures |Voted(users)| == |Voted(old(users))| + 1
      ensures page == Analytics && userAktif == old(userAktif)
    {
      FirstVoteBalances(users, votes, userAktif.value, Vote(|votes| + 1, CandidateLabel(c), waktu));
      MarkVotedCount(users, userAktif);
      SimpanSuara(CandidateLabel(c), waktu);
    }

    /** The figure of the results page: the number of vote rows, which is
        the number of voters who have voted.  The logged-in voter is one of
        them, so the page's "no votes yet" branch is never taken. */
    method TotalPartisipasi() returns (n: nat)
      requires Valid() && page == Analytics
      ensures n == |votes| && n == |Voted(users)| && n <= |users|
      ensures n >= 1
    {
      BalancedBounded(users, votes);
      assert userAktif.value in Voted(users);
      n := |votes|;
    }

    /** The "Keluar" button of the results page. */
    method Logout()
      requires Valid() && page == Analytics
      modifies this
      ensures Valid()
      ensures page == Page.Login && userAktif == None
      ensures users == old(users) && votes == old(votes)
    {
      page := Page.Login;
      userAktif := None;
    }
  }

  /** A one-page KRS that carries the npm, the name and the year. */
  lemma SampleKrsVerifies()
    ensures VerifyKrs("A123", "Jane Doe", ["KRS JANE DOE A123 2024"])
  {
    var krsText := "KRS JANE DOE A123 2024";
    assert Join([krsText]) == krsText;
    assert Upper(krsText) == krsText;
    assert Upper("Jane Doe") == "JANE DOE";
    assert OccursAt("A123", krsText, 13) && OccursAt("JANE DOE", krsText, 4) && OccursAt(YEAR_TOKEN, krsText, 18);
  }

  /** A whole session: register, log in to the ballot, vote, log out.  The
      second login lands on the results page, so the ballot is not offered
      again, and registering the same npm again is refused. */
  method ElectionScenario(hash: string -> string, detect: Image -> nat, selfie: Image)
    requires detect(selfie) > 0
  {
    var app := new App(hash, detect);
    app.GoToRegister();
    var krsText := "KRS JANE DOE A123 2024";
    var form := RegisterForm("Jane Doe", "A123", Region1, "", "rahasia", Some([krsText]), Some(selfie));
    SampleKrsVerifies();
    var outcome := app.Register(form);
    assert outcome == Registered;

    var ok := app.Login("A123", "rahasia");
    assert ok && app.page == Voting && app.userAktif == Some("A123");
    app.Choose(Paslon01, "t1");
    assert app.votes == [Vote(1, "Kandidat 01", "t1")];
    app.Logout();

    ok := app.Login("A123", "rahasia");
    assert ok && app.page == Analytics;
    var n := app.TotalPartisipasi();
    assert n == 1;
    app.Logout();

    app.GoToRegister();
    outcome := app.Register(form);
    assert outcome == DuplicateNpm && app.page == Page.Register;
    assert |app.users| == 1;
  }
}
