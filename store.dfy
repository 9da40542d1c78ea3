/**
  The SQLite tables of both apps, as values: `users` keyed by its primary key
  npm, and the append-only `votes` and `activity_logs` tables as sequences in
  insertion order.  This module holds the table operations the app code issues
  (the keyed SELECT, the INSERT with its primary-key check, the UPDATE of the
  vote flag) and the reports read from the tables.
*/
module Store {

  import opened Wrappers

  /** One row of `users`.  The password column holds the hex SHA-256 digest,
      statusVote is 0 until the voter has voted and 1 afterwards. */
  datatype User = User(npm: string, nama: string, region: string, kelas: string,
                       password: string, statusVote: int)

  /** One row of `votes`: no column identifies the voter. */
  datatype Vote = Vote(id: nat, pilihan: string, waktu: string)

  /** One row of `activity_logs`. */
  datatype LogEntry = LogEntry(id: nat, npm: string, waktu: string, lokasi: string, aktivitas: string)

  type Users = map<string, User>

  /** Every row is stored under its own npm. */
  ghost predicate KeysMatch(users: Users)
  {
    forall k :: k in users ==> users[k].npm == k
  }

  /** The vote flag only ever holds 0 or 1. */
  ghost predicate StatusesBinary(users: Users)
  {
    forall k :: k in users ==> users[k].statusVote == 0 || users[k].statusVote == 1
  }

  /** An AUTOINCREMENT table that was never deleted from: row i has id i + 1. */
  ghost predicate LogIdsSequential(logs: seq<LogEntry>)
  {
    forall i :: 0 <= i < |logs| ==> logs[i].id == i + 1
  }

  ghost predicate VoteIdsSequential(votes: seq<Vote>)
  {
    forall i :: 0 <= i < |votes| ==> votes[i].id == i + 1
  }

  /** SELECT * FROM users WHERE npm=? AND password=?, answered through the
      primary key: it finds a row exactly when a scan of the table would. */
  function FindUser(users: Users, npm: string, hashed: string): (r: Option<User>)
    requires KeysMatch(users)
    ensures r.Some? <==> exists u :: u in users.Values && u.npm == npm && u.password == hashed
    ensures r.Some? ==> r.value in users.Values && r.value.npm == npm && r.value.password == hashed
  {
    if npm in users && users[npm].password == hashed then
      Some(users[npm])
    else
      assert forall u :: u in users.Values ==> exists k :: k in users && users[k] == u;
      None
  }

  /** INSERT INTO users: refused (None) when the npm is already a key.  On
      success exactly one row is added and every other row is kept. */
  function InsertUser(users: Users, row: User): (r: Option<Users>)
    ensures r.None? <==> row.npm in users
    ensures r.Some? ==> r.value.Keys == users.Keys + {row.npm} && r.value[row.npm] == row
    ensures r.Some? ==> forall k :: k in users ==> r.value[k] == users[k]
  {
    if row.npm in users then None else Some(users[row.npm := row])
  }

  /** UPDATE users SET status_vote = 1 WHERE npm = ?.  A NULL parameter, or an
      npm with no row, matches nothing. */
  function MarkVoted(users: Users, who: Option<string>): (r: Users)
    ensures r.Keys == users.Keys
    ensures forall k :: k in users && Some(k) != who ==> r[k] == users[k]
    ensures who.Some? && who.value in users ==> r[who.value] == users[who.value].(statusVote := 1)
  {
    match who
    case None => users
    case Some(npm) => if npm in users then users[npm := users[npm].(statusVote := 1)] else users
  }

  /** The npms whose vote flag is 1. */
  function Voted(users: Users): set<string>
  {
    set k | k in users && users[k].statusVote == 1
  }

  /** The npms whose vote flag is not 1. */
  function NotVoted(users: Users): set<string>
  {
    set k | k in users && users[k].statusVote != 1
  }

  /** One vote row per voter whose flag is set: the election's integrity
      invariant. */
  ghost predicate Balanced(users: Users, votes: seq<Vote>)
  {
    |votes| == |Voted(users)|
  }

  /** Adding a row with flag 0 does not change who has voted. */
  lemma InsertKeepsVoted(users: Users, row: User)
    requires row.npm !in users && row.statusVote == 0
    ensures InsertUser(users, row).Some?
    ensures Voted(InsertUser(users, row).value) == Voted(users)
  {
  }

  /** Setting a voter's flag adds one voter exactly when the flag was not
      already 1 and the row exists; otherwise the count is unchanged. */
  lemma MarkVotedCount(users: Users, who: Option<string>)
    ensures |Voted(MarkVoted(users, who))| ==
      |Voted(users)| + (if who.Some? && who.value in users && users[who.value].statusVote != 1 then 1 else 0)
  {
    var after := MarkVoted(users, who);
    if who.Some? && who.value in users {
      var n := who.value;
      assert Voted(after) == Voted(users) + {n} by {
        forall k ensures k in Voted(after) <==> k in Voted(users) + {n} {
          if k != n && k in users {
            assert after[k] == users[k];
          }
        }
      }
      if users[n].statusVote != 1 {
        assert n !in Voted(users);
      } else {
        assert Voted(users) + {n} == Voted(users);
      }
    } else {
      assert after == users;
    }
  }

  /** simpan_suara does not look at the flag: run for a voter who has already
      voted, it adds a vote row without adding a voter, and the invariant breaks.
      Only the page routing keeps such a call from happening. */
  lemma RepeatedVoteUnbalances(users: Users, votes: seq<Vote>, npm: string, v: Vote)
    requires Balanced(users, votes)
    requires npm in users && users[npm].statusVote == 1
    ensures !Balanced(MarkVoted(users, Some(npm)), votes + [v])
  {
    MarkVotedCount(users, Some(npm));
  }

  /** Recording a vote for a voter whose flag is 0 keeps the invariant. */
  lemma FirstVoteBalances(users: Users, votes: seq<Vote>, npm: string, v: Vote)
    requires Balanced(users, votes)
    requires npm in users && users[npm].statusVote == 0
    ensures Balanced(MarkVoted(users, Some(npm)), votes + [v])
  {
    MarkVotedCount(users, Some(npm));
  }

  /** The admin dashboard's three figures. */
  datatype Counts = Counts(total: nat, sudah: nat, belum: int)

  /** total = number of users, sudah = users with status_vote == 1,
      belum = total - sudah. */
  function Summarize(users: Users): (c: Counts)
    ensures c.total == |users| && c.sudah == |Voted(users)|
    ensures c.belum == |NotVoted(users)|
    ensures c.sudah + c.belum == c.total && 0 <= c.belum <= c.total
  {
    var sudah := |Voted(users)|;
    assert users.Keys == Voted(users) + NotVoted(users);
    assert Voted(users) !! NotVoted(users);
    Counts(|users|, sudah, |users| - sudah)
  }

  /** Under the invariant there are never more votes than registered users. */
  lemma BalancedBounded(users: Users, votes: seq<Vote>)
    requires Balanced(users, votes)
    ensures |votes| <= |users|
  {
    var c := Summarize(users);
  }

  /** The rows in the reverse of their stored order. */
  function NewestFirst(logs: seq<LogEntry>): (r: seq<LogEntry>)
    ensures |r| == |logs|
    ensures forall k :: 0 <= k < |r| ==> r[k] == logs[|logs| - 1 - k]
  {
    if logs == [] then [] else [logs[|logs| - 1]] + NewestFirst(logs[..|logs| - 1])
  }

  const LOG_VIEW_ROWS := 20

  /** SELECT * FROM activity_logs ORDER BY id DESC, first 20 rows: the most
      recent entries, newest first. */
  function RecentLogs(logs: seq<LogEntry>): (r: seq<LogEntry>)
    ensures |r| == if |logs| < LOG_VIEW_ROWS then |logs| else LOG_VIEW_ROWS
    ensures forall k :: 0 <= k < |r| ==> r[k] == logs[|logs| - 1 - k]
    ensures LogIdsSequential(logs) ==> forall i, j :: 0 <= i < j < |r| ==> r[i].id > r[j].id
  {
    var all := NewestFirst(logs);
    all[..if |all| < LOG_VIEW_ROWS then |all| else LOG_VIEW_ROWS]
  }
}
