/** The counter of failed logins against the whole history of failures. */
module Failban {
  // failban_types, failban_time, failban_attempts, failban_bantime
  datatype Config = Config(types: bv8, time: int, attempts: int, banTime: int)

  datatype Row = Row(entryDate: int, lastUpdate: int, attempts: int, bannedUntil: int)

  // ----- the history: times of the failures, in the order in which they were reported -----

  // The number of failures at the end that follow one another with gaps of at most t.
  function Run(ts: seq<int>, t: int): (r: nat)
    ensures r <= |ts| && (ts != [] ==> r >= 1)
  {
    if |ts| <= 1 then |ts|
    else if ts[|ts| - 2] < ts[|ts| - 1] - t then 1
    else 1 + Run(ts[..|ts| - 1], t)
  }

  predicate IsRun(ts: seq<int>, t: int, k: nat) {
    k <= |ts| && forall i :: |ts| - k < i < |ts| ==> ts[i] - ts[i - 1] <= t
  }

  // A run of two or more is one that ends a failure earlier, and a small gap.
  lemma RunStep(ts: seq<int>, t: int, k: nat)
    requires |ts| > 1 && k >= 1
    ensures IsRun(ts, t, k + 1) <==> ts[|ts| - 1] - ts[|ts| - 2] <= t && IsRun(ts[..|ts| - 1], t, k)
  {
    var front := ts[..|ts| - 1];
    assert forall i :: 0 <= i < |front| ==> front[i] == ts[i];
    if IsRun(ts, t, k + 1) {
      forall i | |front| - k < i < |front|
        ensures front[i] - front[i - 1] <= t
      {
        assert ts[i] - ts[i - 1] <= t;
      }
    }
    if ts[|ts| - 1] - ts[|ts| - 2] <= t && IsRun(front, t, k) {
      forall i | |ts| - (k + 1) < i < |ts|
        ensures ts[i] - ts[i - 1] <= t
      {
        if i < |front| {
          assert front[i] - front[i - 1] <= t;
        }
      }
    }
  }

  /** Run is the length of the longest trailing run. */
  lemma {:induction false} RunIsLongest(ts: seq<int>, t: int)
    ensures IsRun(ts, t, Run(ts, t)) && forall k: nat :: IsRun(ts, t, k) ==> k <= Run(ts, t)
  {
    var n := |ts|;
    if n > 1 {
      var front := ts[..n - 1];
      RunIsLongest(front, t);
      forall k: nat | IsRun(ts, t, k)
        ensures k <= Run(ts, t)
      {
        if k > 1 {
          RunStep(ts, t, k - 1);
        }
      }
      if ts[n - 1] - ts[n - 2] <= t {
        RunStep(ts, t, Run(front, t));
      }
    }
  }

  // The number of failures in a row that is punished: never the first one.
  function Limit(c: Config): int {
    if c.attempts > 2 then c.attempts else 2
  }

  predicate Bans(c: Config, ts: seq<int>) {
    Run(ts, c.time) >= Limit(c)
  }

  /** A failure is punished exactly if it is the last of at least two, and of at least as many as
      are configured, that follow one another with gaps of at most the time configured. */
  lemma BansIff(c: Config, ts: seq<int>)
    ensures Bans(c, ts) <==> exists k: nat :: k >= 2 && k >= c.attempts && IsRun(ts, c.time, k)
  {
    RunIsLongest(ts, c.time);
  }

  // When the ban ends, if there is one.
  function Until(c: Config, ts: seq<int>): int {
    if ts == [] then 0
    else
      var before, now := Until(c, ts[..|ts| - 1]), ts[|ts| - 1];
      if |ts| == 1 then 0
      else if before >= now then before
      else if Bans(c, ts) then now + c.banTime else 0
  }

  // The i-th failure starts a ban: none is on, and the run is long enough.
  predicate Starts(c: Config, ts: seq<int>, i: int) {
    0 < i < |ts| && Until(c, ts[..i]) < ts[i] && Bans(c, ts[..i + 1])
  }

  // The ban that the i-th failure starts is the last one: all later failures fall into it.
  predicate Current(c: Config, ts: seq<int>, i: int) {
    Starts(c, ts, i) && forall j :: i < j < |ts| ==> ts[j] <= ts[i] + c.banTime
  }

  lemma {:induction false} CurrentEnds(c: Config, ts: seq<int>, i: int)
    requires Current(c, ts, i)
    ensures Until(c, ts) == ts[i] + c.banTime
  {
    var n := |ts| - 1;
    if i < n {
      var front := ts[..n];
      assert front[..i] == ts[..i] && front[..i + 1] == ts[..i + 1];
      CurrentEnds(c, front, i);
    } else {
      assert ts[..i + 1] == ts;
    }
  }

  lemma {:induction false} BanExplained(c: Config, ts: seq<int>) returns (i: int)
    requires Until(c, ts) != 0
    ensures Current(c, ts, i) && Until(c, ts) == ts[i] + c.banTime
  {
    var n := |ts| - 1;
    var front := ts[..n];
    if Until(c, front) >= ts[n] {
      i := BanExplained(c, front);
      assert front[..i] == ts[..i] && front[..i + 1] == ts[..i + 1];
      forall j | i < j < |ts|
        ensures ts[j] <= ts[i] + c.banTime
      {
        assert j < n ==> front[j] == ts[j];
      }
    } else {
      i := n;
      assert ts[..n + 1] == ts;
    }
  }

  /** At a time after the epoch a ban is on exactly if some failure started one that has not
      run out and that no later failure outlived. */
  lemma BannedIff(c: Config, ts: seq<int>, now: int)
    requires now > 0
    ensures Until(c, ts) >= now <==> exists i :: Current(c, ts, i) && ts[i] + c.banTime >= now
  {
    if Until(c, ts) >= now {
      var i := BanExplained(c, ts);
    }
    forall i | Current(c, ts, i)
      ensures Until(c, ts) == ts[i] + c.banTime
    {
      CurrentEnds(c, ts, i);
    }
  }

  /** A failure that is punished is followed by a ban at once if the ban time is not
      negative; and a failure during a ban changes nothing about it. */
  lemma BanIsImmediate(c: Config, ts: seq<int>, now: int)
    ensures Bans(c, ts + [now]) && c.banTime >= 0 ==> Until(c, ts + [now]) >= now
    ensures Until(c, ts) >= now && ts != [] ==> Until(c, ts + [now]) == Until(c, ts)
  {
    assert (ts + [now])[..|ts|] == ts;
  }

  // ----- the table -----

  // What the row of a non-empty history must be.
  predicate Describes(c: Config, row: Row, ts: seq<int>) {
    && ts != []
    && row.attempts == Run(ts, c.time)
    && row.lastUpdate == ts[|ts| - 1]
    && row.entryDate == ts[|ts| - Run(ts, c.time)]
    && row.bannedUntil == Until(c, ts)
  }

  lemma DescribesFirst(c: Config, now: int)
    ensures Describes(c, Row(now, now, 1, 0), [now]) && !Bans(c, [now])
  {
  }

  lemma DescribesNext(c: Config, row: Row, ts: seq<int>, now: int, until: int)
    requires Describes(c, row, ts)
    requires until == if row.bannedUntil >= now then row.bannedUntil
      else if row.lastUpdate >= now - c.time && row.attempts + 1 >= c.attempts then now + c.banTime
      else 0
    ensures var late := row.lastUpdate < now - c.time;
      && Describes(c, Row(if late then now else row.entryDate, now, if late then 1 else row.attempts + 1, until), ts + [now])
      && (Bans(c, ts + [now]) <==> !late && row.attempts + 1 >= c.attempts)
  {
    assert (ts + [now])[..|ts|] == ts;
  }

  type Key = (int, bv8)    // address and type

  // Every row describes a history, and every history has a row.
  predicate Described(c: Config, rows: map<Key, Row>, failures: map<Key, seq<int>>) {
    && (forall key :: key in rows ==> key in failures && Describes(c, rows[key], failures[key]))
    && (forall key :: key in failures ==> key in rows)
  }

  lemma KeyDescribed(c: Config, rows: map<Key, Row>, failures: map<Key, seq<int>>, key: Key)
    requires Described(c, rows, failures)
    ensures key in rows <==> key in failures
    ensures key in rows ==> Describes(c, rows[key], failures[key])
  {
  }

  lemma DescribedStep(c: Config, rows: map<Key, Row>, failures: map<Key, seq<int>>, key: Key, row: Row, ts: seq<int>)
    requires Described(c, rows, failures) && Describes(c, row, ts)
    ensures Described(c, rows[key := row], failures[key := ts])
  {
    hide Describes;
  }

  class Table {
    const config: Config
    var rows: map<Key, Row>
    ghost var failures: map<Key, seq<int>>

    ghost function History(key: Key): seq<int>
      reads this
    {
      if key in failures then failures[key] else []
    }

    ghost predicate Valid()
      reads this
    {
      Described(config, rows, failures)
    }

    constructor (config: Config)
      ensures Valid() && rows == map[] && this.config == config
    {
      this.config := config;
      rows, failures := map[], map[];
    }

    predicate Counts(localhost: bool, kind: bv8) {
      config.types & kind != 0 && !localhost
    }

    // SELECT COUNT(*) ... WHERE banned_until >= now AND type & kind != 0
    method IsBanned(ip: int, localhost: bool, kind: bv8, now: int) returns (banned: bool)
      requires Valid()
      ensures banned <==> (Counts(localhost, kind) &&
        exists key: Key :: key in failures && key.0 == ip && key.1 & kind != 0 && Until(config, failures[key]) >= now)
    {
      if config.types & kind == 0 || localhost {
        return false;
      }
      var found := set key | key in rows && key.0 == ip && rows[key].bannedUntil >= now && key.1 & kind != 0;
      assert forall key :: key in found ==> Until(config, failures[key]) == rows[key].bannedUntil;
      banned := |found| > 0;
      if banned {
        var key :| key in found;
        assert key in failures;
      } else {
        assert forall key: Key ::
          key in failures && key.0 == ip && key.1 & kind != 0 && Until(config, failures[key]) >= now ==> key in found;
      }
    }

    /** One failure more: the row goes on describing the whole history, and the answer is
        whether the run it ends is long enough to be punished. */
    method LoginFailed(ip: int, localhost: bool, kind: bv8, now: int) returns (banning: bool)
      requires Valid()
      modifies this
      ensures Valid()
      ensures !Counts(localhost, kind) ==> failures == old(failures) && rows == old(rows) && !banning
      ensures Counts(localhost, kind) ==>
        && failures == old(failures)[(ip, kind) := old(History((ip, kind))) + [now]]
        && (banning <==> Bans(config, History((ip, kind))))
    {
      hide Describes, Bans;
      if config.types & kind == 0 || localhost {
        return false;
      }
      banning := false;
      var key := (ip, kind);
      ghost var ts := History(key);
      var row': Row;
      assert Described(config, rows, failures);
      KeyDescribed(config, rows, failures, key);
      hide Described;
      if key in rows {
        var row := rows[key];
        var until := row.bannedUntil;
        if until < now {
          if row.lastUpdate < now - config.time {
            until := 0;
          } else if row.attempts + 1 >= config.attempts {
            until := now + config.banTime;
          } else {
            until := 0;
          }
        }
        DescribesNext(config, row, ts, now, until);
        row' := Row(
          if row.lastUpdate < now - config.time then now else row.entryDate,
          now,
          if row.lastUpdate < now - config.time then 1 else row.attempts + 1,
          until);
        if row.attempts + 1 >= config.attempts && row.lastUpdate >= now - config.time {
          banning := true;
        }
      } else {
        row' := Row(now, now, 1, 0);
        DescribesFirst(config, now);
        assert ts + [now] == [now];
      }
      DescribedStep(config, rows, failures, key, row', ts + [now]);
      rows := rows[key := row'];
      failures := failures[key := ts + [now]];
    }
  }
}
