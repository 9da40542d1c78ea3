/**
  The per-browser session record of both apps (st.session_state): the page
  the router shows and the logged-in voter.
*/
module Session {

  import opened Wrappers
  import opened Store

  /** The values st.session_state.page takes. */
  datatype Page = Login | Register | Voting | Analytics | Admin

  /** What the router draws for a session. */
  datatype View = LoginScreen | RegisterScreen | VotingScreen | AnalyticsScreen | AdminDashboard | Blank

  /** Where a successful student login goes: results if already voted,
      the ballot otherwise. */
  function LandingPage(row: User): (p: Page)
    ensures p == Analytics <==> row.statusVote == 1
    ensures p == Voting <==> row.statusVote != 1
  {
    if row.statusVote == 1 then Analytics else Voting
  }

  /** The session agrees with the tables: the ballot page belongs to a
      registered voter who has not voted, the results page to one who has, and
      no voter is logged in on any other page. */
  ghost predicate SessionAgrees(page: Page, userAktif: Option<string>, users: Users)
  {
    match page
    case Voting => userAktif.Some? && userAktif.value in users && users[userAktif.value].statusVote == 0
    case Analytics => userAktif.Some? && userAktif.value in users && users[userAktif.value].statusVote == 1
    case _ => userAktif.None?
  }
}
