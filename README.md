# Pemira FTI election app — a Dafny model of its decision logic

This project models the logic under the Streamlit UI of the campus election
("Pemira") app, in two versions:

- `app_pemira.py`: registration checked against a KRS (study plan) PDF and a
  selfie; student login; a ballot page with two candidates; a results page.
- `app_pemira_v5_admin.py`: an activity log, a login page with a student
  path and an administrator path, and an admin dashboard.

The SQLite tables become values. `users` is a map keyed by its primary key
`npm`. `votes` and `activity_logs` are sequences in insertion order, and the
AUTOINCREMENT id of the row at position `i` is `i + 1`.
`st.session_state` becomes the fields `page`, `userAktif` and `isAdmin` of
one class per app. Each button of a page is a method. Such a method requires
the page the router draws that button on. Its contract gives the new tables
and the new session.

Files:

- `wrappers.dfy`: `Option`.
- `verification.dfy`: the KRS text check (`verify_krs_logic`) and the selfie
  check (`validate_selfie_opencv`).
- `store.dfy`: the rows, and the keyed SELECT, the INSERT with its
  primary-key check and the UPDATE of the vote flag. It also holds the
  dashboard counts, the audit-log view, and the counting lemmas behind the
  one-vote invariant.
- `session.dfy`: pages, screens, the page a login lands on, and the
  agreement between session and tables.
- `pemira.dfy`: class `App`, the first version. It also has a whole-session
  client method, `ElectionScenario`: register, vote, log in again, register
  again.
- `pemira_admin.dfy`: class `AdminApp`, the v5 version.

The main result is the invariant `App.Valid()`. It says there is exactly one
vote row per user whose `status_vote` is 1. Every button method keeps it,
starting from an empty database. `simpan_suara` (`App.SimpanSuara`) does not
check the flag. `Store.RepeatedVoteUnbalances` shows that a second call for a
voter who has already voted breaks the balance. The invariant holds only
because of the routing:

- the ballot page is reached only by a login whose row has flag 0;
- that page is left for the results page as soon as a vote is cast;
- a later login of the same voter lands on the results page.

`Valid()` records this in `Session.SessionAgrees`. The invariant is about
one session. Two browser sessions logged in as the same voter can both vote.

External pieces are parameters:

- SHA-256 is a constant function `hash` of each app object. Nothing is
  assumed about it, not even injectivity.
- The Haar-cascade detector is a constant function `detect` from image bytes
  to the number of face regions.
- The PDF upload is given as the list of its page texts.
- Timestamps (`time.ctime`, `datetime.now`) are string arguments.

## Model

| member | source | states |
|---|---|---|
| Verification.Contains | app_pemira.py:53 | Python's substring test holds exactly when the needle occurs at some position of the text |
| Verification.VerifyKrs | app_pemira.py:49-53 | the KRS is accepted exactly when the upper-cased text of all pages contains the npm as typed, the upper-cased name and "2024" |
| Verification.LowercaseNpmNeverVerifies | app_pemira.py:52-53 | an npm with a lower-case letter is never found, because only the text is upper-cased |
| Verification.CaseFreeTokenIgnoresCase | app_pemira.py:52-53 | for a token with no letters (the year, an all-digit npm), upper-casing the document does not change whether it is found |
| Verification.TokenOnOnePageSuffices | app_pemira.py:51-52 | a token on any one page is found in the joined text of the whole document |
| Verification.TokenMaySpanPages | app_pemira.py:52 | `"".join` puts no separator between page texts, so for page texts that are arbitrary strings "2024" split over a page break is found though no page carries it |
| Verification.NewlineEndedPagesDoNotSpan | app_pemira.py:52 | when each page text ends with a newline, the same split year is not found |
| Verification.ValidateSelfie | app_pemira.py:40-47 | a missing image gives (false, "Face data missing"); otherwise the check passes exactly when the detector reports at least one region, and the message is "Ok" exactly on a pass |
| Store.FindUser | app_pemira.py:100-103 | the lookup by primary key finds a row exactly when some row has that npm and that password digest, and returns that row |
| Store.InsertUser | app_pemira.py:81-82 | the INSERT fails exactly when the npm is already a key; on success it adds exactly that row and keeps every other row |
| Store.MarkVoted | app_pemira.py:135 | the UPDATE sets status_vote to 1 for the given npm only, keeps all keys and other rows, and with NULL or an unknown npm changes nothing |
| Store.InsertKeepsVoted | app_pemira.py:81-82 | inserting a new row with flag 0 leaves the set of voters who have voted unchanged |
| Store.MarkVotedCount | app_pemira.py:135 | the UPDATE adds one voter exactly when the row exists with a flag other than 1, and otherwise adds none |
| Store.RepeatedVoteUnbalances | app_pemira.py:132-138 | simpan_suara for a voter whose flag is already 1 makes vote rows outnumber voters: it performs no already-voted check |
| Store.FirstVoteBalances | app_pemira.py:132-138 | simpan_suara for a voter whose flag is 0 keeps one vote row per voter |
| Store.Summarize | app_pemira_v5_admin.py:57-59 | total is the number of users, sudah those with status_vote 1, belum those without; sudah + belum = total and 0 <= belum <= total |
| Store.BalancedBounded | app_pemira.py:17-18 | while vote rows match voters, there are never more votes than registered users |
| Store.NewestFirst | app_pemira_v5_admin.py:67 | the log rows in reverse stored order, the newest first |
| Store.RecentLogs | app_pemira_v5_admin.py:67-68 | the audit view: at most 20 rows, exactly the latest ones, newest first, with strictly descending ids |
| Session.LandingPage | app_pemira.py:107 | a login lands on the results when status_vote is 1 and on the ballot otherwise |
| Pemira.Route | app_pemira.py:159-162 | the router draws each page's own screen (login, registration, ballot, results), and draws nothing only for the admin page, which this version does not have |
| Pemira.SampleKrsVerifies | app_pemira.py:49-53 | a one-page KRS reading "KRS JANE DOE A123 2024" verifies npm "A123" and name "Jane Doe" |
| Pemira.App.constructor | app_pemira.py:11-28 | a new session over empty tables starts on the login page with no user, and the invariant holds |
| Pemira.App.Screen | app_pemira.py:159-162 | in a valid session the router always draws a page |
| Pemira.App.Register | app_pemira.py:72-91 | nothing happens unless name, npm, password, KRS and selfie are present; both checks must pass; a known npm is refused; only a full success inserts the row with the hashed password and flag 0 and moves to login |
| Pemira.App.GoToRegister | app_pemira.py:112-114 | the "Buat Akun" button moves from login to registration and changes nothing else |
| Pemira.App.Login | app_pemira.py:99-110 | login succeeds exactly when a row matches npm and password digest, then sets the user and routes on the flag; any failure changes nothing |
| Pemira.App.SimpanSuara | app_pemira.py:132-138 | given positional ids, appends one vote row with the next id, sets the flag of the logged-in npm only, moves to results, and checks nothing first |
| Pemira.App.Choose | app_pemira.py:125-130 | a ballot button records that candidate's label, adds exactly one voter and keeps the one-vote invariant |
| Pemira.App.TotalPartisipasi | app_pemira.py:148-156 | the results figure is the number of vote rows, which equals the number of voters with the flag set, is at most the number of users and is at least 1, so the "no votes yet" branch is never reached in one session |
| Pemira.App.Logout | app_pemira.py:143-146 | "Keluar" returns to login with no user and leaves the tables alone |
| PemiraAdmin.RouteAdmin | app_pemira_v5_admin.py:122-128 | the dashboard is drawn exactly when the page is 'admin' and is_admin holds; login and register pages are drawn; everything else is blank |
| PemiraAdmin.AdminApp.constructor | app_pemira_v5_admin.py:14-31 | a new session over the existing tables starts on the login page, with no user and not admin |
| PemiraAdmin.AdminApp.SaveLog | app_pemira_v5_admin.py:34-38 | given positional ids, appends exactly one row (next id, npm, time, "Jakarta", activity) and changes nothing else |
| PemiraAdmin.AdminApp.SignIn | app_pemira_v5_admin.py:87-108 | the admin path succeeds exactly for "admin"/"admin123", sets is_admin and the admin page, and never logs; the student path matches npm and digest, logs exactly one "Login Berhasil" row and routes on the flag; failures change nothing |
| PemiraAdmin.AdminApp.AdminLogout | app_pemira_v5_admin.py:44-47 | clears is_admin, returns to login, and leaves the tables alone |
| PemiraAdmin.AdminApp.Dashboard | app_pemira_v5_admin.py:51-68 | the dashboard figures satisfy sudah + belum = total with 0 <= belum, and the log table holds the latest min(20, number of rows) rows, newest first, with descending ids |

## Left out

- The Streamlit UI is not modelled: CSS, columns, tabs, `st.rerun`, `time.sleep` and the success and error message texts. Only the resulting session and table changes are kept. A failed registration or login keeps the same page.
- SQLite connections, cursors and commits are not modelled. Each statement is an update of a map or a sequence.
- OpenCV decoding and the Haar cascade (with scale 1.3 and 5 neighbours) are reduced to the detector-count function. A corrupt image makes `imdecode`/`cvtColor` raise an uncaught error; that crash is not modelled.
- PyMuPDF parsing is reduced to the list of page texts. A PDF that fails to parse raises an uncaught error and is not modelled.
- SHA-256 is left uninterpreted. Timestamps are arbitrary strings.
- `str.upper` is modelled for ASCII only; Unicode case mapping is left out.
- The `except:` of the registration INSERT catches every error. Only its duplicate-key cause is modelled. The same `try` also wraps `st.rerun()` (app_pemira.py:87), which stops the script run by raising an exception. So, reading the code, a successful registration also shows "NPM sudah terdaftar di sistem." and leaves the form on screen until the next interaction. By then the row is inserted and the page is 'login', which is the state the model gives. The message itself is not modelled.
- The pandas, plotly and bar-chart aggregation of votes per candidate is not modelled: the analytics chart, v5's vote pie chart and the rendering of the users table.
- Concurrency between browser sessions is not modelled (connections are opened with `check_same_thread=False`). The one-vote invariant is proved for a single session only.
- v5's registration, my-account and "Kembali" stubs carry no logic and are left out. v5 does not route its voting and analytics pages, which show as `Blank`. v5's `foto_verif` column is never written in the code and is not part of the row.
- Logging on registration, rejection of a second vote and validation of the candidate are left out, because the code does not do them.
- The code does not catch PDF or image errors. It has no already-voted or invalid-candidate error. The first version writes no audit rows. v5 picks the administrator path with a radio button. The model follows the code.
- Verification.TokenMaySpanPages: the page texts are arbitrary strings here. The model does not capture that the PDF extractor ends every line it outputs with a newline, so a real KRS puts a newline at each page break and a token split across pages is not found there (`Verification.NewlineEndedPagesDoNotSpan`).
- PemiraAdmin.AdminApp.SignIn: the contract cannot say that the administrator path does not read the users table; only the body shows it.
