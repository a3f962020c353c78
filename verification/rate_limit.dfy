/** The contact endpoint's in-memory, fixed-window rate limiter: a table
    from client address to a request count and the instant (in
    milliseconds) its window ends. The clock is a parameter. Entries are
    never evicted. */
module RateLimit {

  /** Length of a window, in milliseconds. */
  const WindowMs: int := 60000

  /** Requests allowed per address and window. */
  const MaxPerWindow: nat := 3

  datatype Entry = Entry(count: nat, resetTime: int)

  type Table = map<string, Entry>

  datatype Decision = Decision(table: Table, allowed: bool)

  /** A window is over only once the clock is strictly past its end. */
  predicate Expired(e: Entry, now: int) { now > e.resetTime }

  /** Requests an entry still admits before its window ends. */
  function Headroom(e: Entry): nat {
    if e.count >= MaxPerWindow then 0 else MaxPerWindow - e.count
  }

  /** `checkRateLimit(ip)` at clock `now`. */
  function CheckRateLimit(t: Table, ip: string, now: int): (d: Decision)
    ensures ip in d.table && d.table == t[ip := d.table[ip]]
    ensures ip !in t || Expired(t[ip], now) ==>
              d.allowed && d.table[ip] == Entry(1, now + WindowMs)
    ensures ip in t && !Expired(t[ip], now) ==>
              && d.table[ip].resetTime == t[ip].resetTime
              && (d.allowed <==> Headroom(t[ip]) > 0)
              && Headroom(d.table[ip]) == if d.allowed then Headroom(t[ip]) - 1 else 0
    ensures ip in t && !Expired(t[ip], now) && d.allowed ==> d.table[ip].count == t[ip].count + 1
    ensures !d.allowed ==> d.table == t
  {
    if ip !in t || now > t[ip].resetTime then
      Decision(t[ip := Entry(1, now + WindowMs)], true)
    else if t[ip].count >= MaxPerWindow then
      Decision(t, false)
    else
      Decision(t[ip := Entry(t[ip].count + 1, t[ip].resetTime)], true)
  }

  /** The decision for `ip` depends on `ip`'s entry alone, and no other
      address's entry is read or written. */
  lemma CheckRateLimitIsolated(t1: Table, t2: Table, ip: string, other: string, now: int)
    requires ip in t1 <==> ip in t2
    requires ip in t1 ==> t1[ip] == t2[ip]
    requires other != ip
    ensures CheckRateLimit(t1, ip, now).allowed == CheckRateLimit(t2, ip, now).allowed
    ensures CheckRateLimit(t1, ip, now).table[ip] == CheckRateLimit(t2, ip, now).table[ip]
    ensures other in CheckRateLimit(t1, ip, now).table <==> other in t1
    ensures other in t1 ==> CheckRateLimit(t1, ip, now).table[other] == t1[other]
  {
  }

  /** Result of a run of requests from one address. */
  datatype Tally = Tally(table: Table, allowed: nat)

  /** Requests from `ip` at the clock readings in `times`, in order. */
  function Replay(t: Table, ip: string, times: seq<int>): (r: Tally)
    ensures r.allowed <= |times|
    decreases |times|
  {
    if times == [] then Tally(t, 0)
    else
      var d := CheckRateLimit(t, ip, times[0]);
      var rest := Replay(d.table, ip, times[1..]);
      Tally(rest.table, rest.allowed + if d.allowed then 1 else 0)
  }

  function MinNat(a: nat, b: nat): nat { if a <= b then a else b }

  /** While every request falls inside the current window, exactly the first
      `Headroom` of them are allowed and the window's end does not move. */
  lemma {:induction false} ReplayWithinWindow(t: Table, ip: string, times: seq<int>)
    requires ip in t
    requires forall k :: 0 <= k < |times| ==> times[k] <= t[ip].resetTime
    ensures Replay(t, ip, times).allowed == MinNat(|times|, Headroom(t[ip]))
    ensures ip in Replay(t, ip, times).table
    ensures Replay(t, ip, times).table[ip].resetTime == t[ip].resetTime
  {
    if times != [] {
      var d := CheckRateLimit(t, ip, times[0]);
      assert !Expired(t[ip], times[0]);
      ReplayWithinWindow(d.table, ip, times[1..]);
    }
  }

  /** However the table stood, no more than `MaxPerWindow` requests are
      allowed among those that fall inside the window in force after the
      first of them. */
  lemma AtMostThreePerWindow(t: Table, ip: string, times: seq<int>)
    requires |times| > 0
    requires forall k :: 0 <= k < |times| ==>
               times[k] <= CheckRateLimit(t, ip, times[0]).table[ip].resetTime
    ensures Replay(t, ip, times).allowed <= MaxPerWindow
  {
    var d := CheckRateLimit(t, ip, times[0]);
    ReplayWithinWindow(d.table, ip, times[1..]);
  }

  /** From a fresh (absent or expired) entry, four requests inside one
      minute: the first three are allowed and the fourth is refused. */
  lemma FourthRequestRefused(t: Table, ip: string, times: seq<int>)
    requires |times| == 4
    requires ip !in t || Expired(t[ip], times[0])
    requires forall k :: 0 <= k < 4 ==> times[0] <= times[k] <= times[0] + WindowMs
    ensures Replay(t, ip, times[..3]).allowed == 3
    ensures Replay(t, ip, times).allowed == 3
  {
    var d := CheckRateLimit(t, ip, times[0]);
    assert times[..3][1..] == times[1..3];
    ReplayWithinWindow(d.table, ip, times[1..3]);
    ReplayWithinWindow(d.table, ip, times[1..]);
  }
}
