/**
  app_pemira_v5_admin.py: the later version with an activity log, a login page
  that offers a student and an administrator path, and an admin dashboard.
  Its registration and account pages are placeholders, so this version never
  inserts users: a session starts over whatever the tables already hold.
*/
module PemiraAdmin {

  import opened Wrappers
  import opened Store
  import opened Session

  /** The radio button of the login page. */
  datatype LoginRole = Mahasiswa | Administrator

  /** The fixed administrator credentials of the demo. */
  const ADMIN_USER := "admin"
  const ADMIN_PASSWORD := "admin123"

  /** The location tag save_log writes on every row. */
  const LOG_LOCATION := "Jakarta"

  const LOGIN_ACTIVITY := "Login Berhasil"

  /** The router of this version: the dashboard only for an admin session on
      the admin page; the login and registration pages; nothing else. */
  function RouteAdmin(page: Page, isAdmin: bool): (v: View)
    ensures v == AdminDashboard <==> page == Admin && isAdmin
    ensures v == LoginScreen <==> page == Login
    ensures v == RegisterScreen <==> page == Register
    ensures v == Blank <==> page == Voting || page == Analytics || (page == Admin && !isAdmin)
  {
    if page == Admin && isAdmin then AdminDashboard
    else if page == Login then LoginScreen
    else if page == Register then RegisterScreen
    else
      assert page.Voting? || page.Analytics? || page.Admin?;
      Blank
  }

  class AdminApp {
    /** hashlib.sha256(...).hexdigest(), left uninterpreted. */
    const hash: string -> string

    var users: Users
    var logs: seq<LogEntry>
    var page: Page
    var userAktif: Option<string>
    var isAdmin: bool

    /** Well-formed tables, and a session in which the admin flag is set
        exactly while the admin page is current. */
    ghost predicate Valid()
      reads this
    {
      && KeysMatch(users)
      && StatusesBinary(users)
      && LogIdsSequential(logs)
      && SessionAgrees(page, userAktif, users)
      && (isAdmin <==> page == Admin)
    }

    /** A fresh session over an existing database. */
    constructor (hash: string -> string, users: Users, logs: seq<LogEntry>)
      requires KeysMatch(users) && StatusesBinary(users) && LogIdsSequential(logs)
      ensures Valid()
      ensures this.hash == hash && this.users == users && this.logs == logs
      ensures page == Page.Login && userAktif == None && !isAdmin
    {
      this.hash := hash;
      this.users := users;
      this.logs := logs;
      page := Page.Login;
      userAktif := None;
      isAdmin := false;
    }

    function Screen(): View
      reads this
    {
      RouteAdmin(page, isAdmin)
    }

    /** save_log: appends one row, with the next id and the fixed location,
        and touches nothing else. */
    method SaveLog(npm: string, aktivitas: string, waktu: string)
      requires LogIdsSequential(logs)
      modifies this
      ensures LogIdsSequential(logs)
      ensures logs == old(logs) + [LogEntry(|old(logs)| + 1, npm, waktu, LOG_LOCATION, aktivitas)]
      ensures users == old(users) && page == old(page) && userAktif == old(userAktif) && isAdmin == old(isAdmin)
    {
      logs := logs + [LogEntry(|logs| + 1, npm, waktu, LOG_LOCATION, aktivitas)];
    }

    /** The login button.  The administrator path compares with the fixed pair
        and neither reads the users table nor logs; the student path matches
        npm and password digest, logs one "Login Berhasil" row and routes on
        the vote flag.  A failure on either path changes nothing. */
    method SignIn(role: LoginRole, userIn: string, passIn: string, waktu: string) returns (ok: bool)
      requires Valid() && page == Page.Login
      modifies this
      ensures Valid()
      ensures users == old(users)
      ensures role == Administrator ==>
        (ok <==> userIn == ADMIN_USER && passIn == ADMIN_PASSWORD) &&
        logs == old(logs) && userAktif == old(userAktif) &&
        (ok ==> isAdmin && page == Admin) &&
        (!ok ==> isAdmin == old(isAdmin) && page == old(page))
      ensures role == Mahasiswa ==>
        (ok <==> userIn in users && users[userIn].password == hash(passIn)) &&
        isAdmin == old(isAdmin) &&
        (ok ==> userAktif == Some(userIn) &&
                page == (if users[userIn].statusVote == 1 then Analytics else Voting) &&
                logs == old(logs) + [LogEntry(|old(logs)| + 1, userIn, waktu, LOG_LOCATION, LOGIN_ACTIVITY)]) &&
        (!ok ==> logs == old(logs) && userAktif == old(userAktif) && page == old(page))
    {
      if role == Administrator {
        if userIn == ADMIN_USER && passIn == ADMIN_PASSWORD {
          isAdmin := true;
          page := Admin;
          ok := true;
        } else {
          ok := false;
        }
      } else {
        var hashedPw := hash(passIn);
        var user := FindUser(users, userIn, hashedPw);
        if user.Some? {
          assert user.value == users[userIn];
          userAktif := Some(userIn);
          SaveLog(userIn, LOGIN_ACTIVITY, waktu);
          page := LandingPage(user.value);
          ok := true;
        } else {
          ok := false;
        }
      }
    }

    /** The "Logout Admin" button of the dashboard. */
    method AdminLogout()
      requires Valid() && Screen() == AdminDashboard
      modifies this
      ensures Valid()
      ensures !isAdmin && page == Page.Login
      ensures users == old(users) && logs == old(logs) && userAktif == old(userAktif)
    {
      isAdmin := false;
      page := Page.Login;
    }

    /** The dashboard's figures and its audit table, read from the tables. */
    method Dashboard() returns (counts: Counts, recent: seq<LogEntry>)
      requires Valid() && Screen() == AdminDashboard
      ensures counts.total == |users| && counts.sudah == |Voted(users)|
      ensures counts.sudah + counts.belum == counts.total && 0 <= counts.belum <= counts.total
      ensures |recent| == if |logs| < LOG_VIEW_ROWS then |logs| else LOG_VIEW_ROWS
      ensures forall k :: 0 <= k < |recent| ==> recent[k] == logs[|logs| - 1 - k]
      ensures forall i, j :: 0 <= i < j < |recent| ==> recent[i].id > recent[j].id
    {
      counts := Summarize(users);
      recent := RecentLogs(logs);
    }
  }
}
