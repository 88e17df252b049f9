/** Rate limiting of the anonymous endpoints (authapp/throttle.py): which address a request is
    counted under, and how many requests a fixed window lets through. */
module Throttle {
  import opened Rows
  import opened Texts

  // --- the client's address -----------------------------------------------------------------

  /** `str.split(",")` */
  function Split(s: string): (parts: seq<string>)
    ensures |parts| > 0
  {
    if s == "" then [""]
    else
      var rest := Split(s[1..]);
      if s[0] == ',' then [""] + rest else [[s[0]] + rest[0]] + rest[1..]
  }

  /** Stripped, and the empty ones dropped. */
  function Stripped(parts: seq<string>): seq<string> {
    if parts == [] then [] else (if Strip(parts[0]) == "" then [] else [Strip(parts[0])]) + Stripped(parts[1..])
  }

  function Joined(parts: seq<string>): string
    requires parts != []
  {
    if |parts| == 1 then parts[0] else parts[0] + "," + Joined(parts[1..])
  }

  /** Splitting gives parts without commas that make up the string again. */
  lemma {:induction false} SplitIs(s: string)
    ensures Joined(Split(s)) == s && forall p :: p in Split(s) ==> ',' !in p
  {
    if s != "" {
      var rest := Split(s[1..]);
      SplitIs(s[1..]);
      if s[0] == ',' {
        assert Split(s)[1..] == rest;
        assert Joined(Split(s)) == "" + "," + Joined(rest);
      } else {
        var head := [s[0]] + rest[0];
        assert rest[0] in rest;
        assert Split(s) == [head] + rest[1..];
        assert Split(s)[1..] == rest[1..];
        if |rest| > 1 { assert Joined(rest) == rest[0] + "," + Joined(rest[1..]); }
      }
    }
  }

  /** Exactly the parts that are not blank are kept, stripped. */
  lemma {:induction false} StrippedAre(parts: seq<string>)
    ensures forall p :: p in Stripped(parts) <==> p != "" && exists i :: 0 <= i < |parts| && Strip(parts[i]) == p
  {
    if parts != [] {
      StrippedAre(parts[1..]);
      forall p ensures p in Stripped(parts) <==> p != "" && exists i :: 0 <= i < |parts| && Strip(parts[i]) == p {
        if i :| 0 <= i < |parts[1..]| && Strip(parts[1..][i]) == p { assert Strip(parts[i + 1]) == p; }
        if i :| 0 <= i < |parts| && Strip(parts[i]) == p { assert i > 0 ==> Strip(parts[1..][i - 1]) == p; }
      }
    }
  }

  /** `_client_ip` */
  function ClientIp(depth: int, remoteAddr: string, forwarded: string): string {
    var parts := Stripped(Split(forwarded));
    if depth <= 0 || |parts| < depth then remoteAddr else parts[|parts| - depth]
  }

  /** Without trusted proxies, or with fewer entries than there are proxies, no header matters: the
      address is the peer's. */
  lemma PeerAddress(depth: int, remoteAddr: string, forwarded: string)
    requires depth <= 0 || |Stripped(Split(forwarded))| < depth
    ensures ClientIp(depth, remoteAddr, forwarded) == remoteAddr
  {
  }

  lemma {:induction false} SplitAtComma(a: string, b: string)
    ensures Split(a + "," + b) == Split(a) + Split(b)
  {
    if a == "" {
      assert a + "," + b == "," + b && ("," + b)[1..] == b;
    } else {
      assert (a + "," + b)[1..] == a[1..] + "," + b;
      SplitAtComma(a[1..], b);
    }
  }

  lemma {:induction false} StrippedConcat(a: seq<string>, b: seq<string>)
    ensures Stripped(a + b) == Stripped(a) + Stripped(b)
  {
    if a == [] {
      assert a + b == b;
    } else {
      assert (a + b)[1..] == a[1..] + b;
      StrippedConcat(a[1..], b);
    }
  }

  /** What a trusted proxy appends: one address, possibly with blanks around it. */
  predicate IsAddress(s: string) { ',' !in s && Strip(s) != "" }

  /** The header after each proxy appended the address it saw. */
  function Appended(header: string, seen: seq<string>): string {
    if seen == [] then header else Appended(header, seen[..|seen| - 1]) + "," + seen[|seen| - 1]
  }

  lemma {:induction false} SplitAddress(s: string)
    requires ',' !in s
    ensures Split(s) == [s]
  {
    if s != "" {
      assert s[0] in s;
      SplitAddress(s[1..]);
      assert [s[0]] + s[1..] == s;
    }
  }

  /** One proxy more is one part more. */
  lemma OneMorePart(header: string, address: string)
    requires IsAddress(address)
    ensures Stripped(Split(header + "," + address)) == Stripped(Split(header)) + [Strip(address)]
  {
    SplitAtComma(header, address);
    StrippedConcat(Split(header), Split(address));
    SplitAddress(address);
    assert Stripped([address]) == [Strip(address)] + Stripped([]);
  }

  function StripEach(seen: seq<string>): (parts: seq<string>)
    ensures |parts| == |seen| && (seen != [] ==> parts[0] == Strip(seen[0]))
  {
    if seen == [] then [] else StripEach(seen[..|seen| - 1]) + [Strip(seen[|seen| - 1])]
  }

  lemma {:induction false} AppendedParts(header: string, seen: seq<string>)
    requires forall a :: a in seen ==> IsAddress(a)
    ensures Stripped(Split(Appended(header, seen))) == Stripped(Split(header)) + StripEach(seen)
  {
    if seen != [] {
      var front, last := seen[..|seen| - 1], seen[|seen| - 1];
      assert last in seen && forall a :: a in front ==> a in seen;
      AppendedParts(header, front);
      OneMorePart(Appended(header, front), last);
    }
  }

  /** With as many trusted proxies as configured, whatever header the caller sent, the address is
      the one the outermost proxy saw. */
  lemma CallerCannotChoose(depth: int, remoteAddr: string, header: string, seen: seq<string>)
    requires depth > 0 && |seen| == depth && forall a :: a in seen ==> IsAddress(a)
    ensures ClientIp(depth, remoteAddr, Appended(header, seen)) == Strip(seen[0])
  {
    AppendedParts(header, seen);
  }

  /** Also when the caller sent none, so that the first proxy begins the header. */
  lemma WithoutAHeader(depth: int, remoteAddr: string, first: string, others: seq<string>)
    requires depth == 1 + |others| && IsAddress(first) && forall a :: a in others ==> IsAddress(a)
    ensures ClientIp(depth, remoteAddr, Appended(first, others)) == Strip(first)
  {
    AppendedParts(first, others);
    SplitAddress(first);
    assert Stripped([first]) == [Strip(first)];
  }

  // --- the window ---------------------------------------------------------------------------

  const WINDOW_SECONDS := 60.0

  /** The counter of one bucket and address. It expires a window after it was set. */
  datatype Counter = Counter(start: real, count: int)

  predicate LiveAt(e: Option<Counter>, now: real) { e.Some? && now < e.value.start + WINDOW_SECONDS }

  function Counted(e: Option<Counter>, now: real): Counter {
    if LiveAt(e, now) then e.value.(count := e.value.count + 1) else Counter(now, 1)
  }

  /** Whether the request is let through: the first of a window always is. */
  predicate LetsThrough(e: Option<Counter>, now: real, limit: int) {
    LiveAt(e, now) ==> e.value.count + 1 <= limit
  }

  /** A window lasts sixty seconds from its first request, which begins it anew and is let through; of
      the later ones in it, counted, those within the limit are. */
  lemma WindowIs(e: Option<Counter>, now: real, limit: int)
    ensures var within := e.Some? && now < e.value.start + 60.0;
            && Counted(e, now) == (if within then Counter(e.value.start, e.value.count + 1) else Counter(now, 1))
            && (LetsThrough(e, now, limit) <==> !within || e.value.count < limit)
  {
  }

  function After(times: seq<real>): Option<Counter> {
    if times == [] then None else Some(Counted(After(times[..|times| - 1]), times[|times| - 1]))
  }

  ghost predicate InOrder(times: seq<real>) { forall i, j :: 0 <= i < j < |times| ==> times[i] <= times[j] }

  /** How many requests of the span were let through. */
  function Admitted(times: seq<real>, limit: int, from: real, to: real): nat {
    if times == [] then 0
    else
      var front, now := times[..|times| - 1], times[|times| - 1];
      Admitted(front, limit, from, to) + if from <= now <= to && LetsThrough(After(front), now, limit) then 1 else 0
  }

  function AtLeastOne(limit: int): int { if limit < 1 then 1 else limit }

  function Least(a: int, b: int): int { if a < b then a else b }

  /** The current window is the last request's. */
  lemma {:induction false} WindowIsCurrent(times: seq<real>)
    requires InOrder(times) && times != []
    ensures var e := After(times).value; e.start <= times[|times| - 1] < e.start + WINDOW_SECONDS && e.count >= 1
  {
    var front := times[..|times| - 1];
    if front != [] { WindowIsCurrent(front); }
  }

  /** Nothing is let through in a span that has not begun. */
  lemma {:induction false} NothingYet(times: seq<real>, limit: int, from: real, to: real)
    requires InOrder(times) && (times != [] ==> times[|times| - 1] < from)
    ensures Admitted(times, limit, from, to) == 0
  {
    if times != [] {
      var front := times[..|times| - 1];
      NothingYet(front, limit, from, to);
    }
  }

  /** Of the requests of a window exactly the first `limit` are let through, at least one: the last
      request is, when it is among them, and so many have been by then. */
  lemma {:induction false} WindowLimit(times: seq<real>, limit: int)
    requires InOrder(times) && times != []
    ensures LetsThrough(After(times[..|times| - 1]), times[|times| - 1], limit) <==>
              After(times).value.count <= AtLeastOne(limit)
    ensures var e := After(times).value;
            Admitted(times, limit, e.start, e.start + WINDOW_SECONDS) == Least(e.count, AtLeastOne(limit))
  {
    var front, now, e := times[..|times| - 1], times[|times| - 1], After(times).value;
    WindowIsCurrent(times);
    if front != [] {
      WindowIsCurrent(front);
      if LiveAt(After(front), now) {
        WindowLimit(front, limit);
      } else {
        NothingYet(front, limit, e.start, e.start + WINDOW_SECONDS);
      }
    }
  }

  /** How much of a span the windows up to the current one can have let through, by where the
      current window began. */
  function Budget(e: Option<Counter>, from: real, limit: int): int {
    if e.None? then 0
    else if e.value.start <= from then Least(e.value.count, AtLeastOne(limit))
    else if e.value.start <= from + WINDOW_SECONDS then AtLeastOne(limit) + Least(e.value.count, AtLeastOne(limit))
    else 2 * AtLeastOne(limit)
  }

  lemma {:induction false} WithinBudget(times: seq<real>, limit: int, from: real)
    requires InOrder(times)
    ensures Admitted(times, limit, from, from + WINDOW_SECONDS) <= Budget(After(times), from, limit)
  {
    if times != [] {
      var front, now := times[..|times| - 1], times[|times| - 1];
      WithinBudget(front, limit, from);
      WindowIsCurrent(times);
      if front != [] {
        WindowIsCurrent(front);
        if !LiveAt(After(front), now) && now <= from { NothingYet(front, limit, from, from + WINDOW_SECONDS); }
      }
    }
  }

  /** In any span of a window's length, both ends included, at most twice the limit is let through. */
  lemma AnySpanLimit(times: seq<real>, limit: int, from: real)
    requires InOrder(times)
    ensures Admitted(times, limit, from, from + 60.0) <= 2 * if limit < 1 then 1 else limit
  {
    WithinBudget(times, limit, from);
  }

  /** And twice the limit is reached, by a burst at each end. */
  function Bursts(n: nat, m: nat): seq<real> { seq(n, _ => 0.0) + seq(m, _ => WINDOW_SECONDS) }

  lemma {:induction false} FirstBurst(n: nat, limit: int)
    requires 1 <= n <= limit
    ensures After(Bursts(n, 0)) == Some(Counter(0.0, n)) && Admitted(Bursts(n, 0), limit, 0.0, WINDOW_SECONDS) == n
  {
    var front := Bursts(n, 0)[..n - 1];
    assert front == Bursts(n - 1, 0);
    if n > 1 { FirstBurst(n - 1, limit); } else { assert front == []; }
  }

  lemma {:induction false} SecondBurst(m: nat, limit: int)
    requires 1 <= m <= limit
    ensures After(Bursts(limit, m)) == Some(Counter(WINDOW_SECONDS, m))
    ensures Admitted(Bursts(limit, m), limit, 0.0, WINDOW_SECONDS) == limit + m
  {
    var all := Bursts(limit, m);
    assert all[..|all| - 1] == Bursts(limit, m - 1);
    if m > 1 { SecondBurst(m - 1, limit); } else { FirstBurst(limit, limit); }
  }

  lemma TwiceTheLimitIsReached(limit: int)
    requires limit >= 1
    ensures InOrder(Bursts(limit, limit))
    ensures Admitted(Bursts(limit, limit), limit, 0.0, WINDOW_SECONDS) == 2 * AtLeastOne(limit)
  {
    SecondBurst(limit, limit);
  }

  // --- the cache ----------------------------------------------------------------------------

  datatype Request = Request(key: string, now: real)

  /** When the requests of one key came. */
  function TimesOf(requests: seq<Request>, key: string): seq<real> {
    if requests == [] then []
    else
      var last := requests[|requests| - 1];
      TimesOf(requests[..|requests| - 1], key) + if last.key == key then [last.now] else []
  }

  ghost predicate Arriving(requests: seq<Request>) {
    forall i, j :: 0 <= i < j < |requests| ==> requests[i].now <= requests[j].now
  }

  lemma {:induction false} TimesInOrder(requests: seq<Request>, key: string)
    requires Arriving(requests)
    ensures InOrder(TimesOf(requests, key))
    ensures forall t :: t in TimesOf(requests, key) ==> exists i :: 0 <= i < |requests| && requests[i].now == t
  {
    if requests != [] {
      var front, last := requests[..|requests| - 1], requests[|requests| - 1];
      TimesInOrder(front, key);
      var times := TimesOf(front, key);
      forall i | 0 <= i < |times| ensures times[i] <= last.now {
        assert times[i] in times;
        var j :| 0 <= j < |front| && front[j].now == times[i];
      }
      assert requests[|requests| - 1].now == last.now;
      forall t | t in times ensures exists i :: 0 <= i < |requests| && requests[i].now == t {
        var i :| 0 <= i < |front| && front[i].now == t;
        assert requests[i].now == t;
      }
    }
  }

  lemma OneMoreRequest(requests: seq<Request>, key: string)
    requires requests != []
    ensures var front, last := requests[..|requests| - 1], requests[|requests| - 1];
            && TimesOf(requests, key) ==
              (if last.key == key then TimesOf(front, key) + [last.now] else TimesOf(front, key))
            && After(TimesOf(requests, key)) ==
                 if last.key == key then Some(Counted(After(TimesOf(front, key)), last.now))
                 else After(TimesOf(front, key))
  {
    var front, last := requests[..|requests| - 1], requests[|requests| - 1];
    var times := TimesOf(front, key);
    assert (times + [last.now])[..|times|] == times;
    assert times + [] == times;
  }

  /** The cache of counters. */
  class Cache {
    var entries: map<string, Counter>

    constructor ()
      ensures entries == map[]
    {
      entries := map[];
    }

    function At(key: string): Option<Counter>
      reads this
    {
      if key in entries then Some(entries[key]) else None
    }

    /** `is_throttled`, for the key of a bucket and an address. */
    method IsThrottled(key: string, limit: int, now: real) returns (throttled: bool)
      modifies this
      ensures throttled <==> !LetsThrough(old(At(key)), now, limit)
      ensures At(key) == Some(Counted(old(At(key)), now))
      ensures forall other :: other != key ==> At(other) == old(At(other))
    {
      if key !in entries || entries[key].start + WINDOW_SECONDS <= now {  // cache.add
        entries := entries[key := Counter(now, 1)];
        return false;
      }
      var count := entries[key].count + 1;  // cache.incr keeps the expiry
      entries := entries[key := entries[key].(count := count)];
      return count > limit;
    }

    /** Any run of requests under any keys: each key is counted as if alone, and each request let
        through exactly when its own key's requests before it allow. */
    method Serve(requests: seq<Request>, limit: int) returns (throttled: seq<bool>)
      requires entries == map[]
      modifies this
      ensures forall key :: At(key) == After(TimesOf(requests, key))
      ensures |throttled| == |requests|
      ensures forall i :: 0 <= i < |requests| ==> (throttled[i] <==> Refused(requests, i, limit))
    {
      throttled := [];
      for n := 0 to |requests|
        invariant forall key :: At(key) == After(TimesOf(requests[..n], key))
        invariant |throttled| == n && forall i :: 0 <= i < n ==> (throttled[i] <==> Refused(requests, i, limit))
      {
        ghost var front, upTo := requests[..n], requests[..n + 1];
        assert upTo[..|upTo| - 1] == front && upTo[|upTo| - 1] == requests[n];
        forall key { OneMoreRequest(upTo, key); }
        var r := requests[n];
        var t := IsThrottled(r.key, limit, r.now);
        throttled := throttled + [t];
      }
      assert requests[..|requests|] == requests;
    }
  }

  ghost predicate Refused(requests: seq<Request>, i: nat, limit: int)
    requires i < |requests|
  {
    !LetsThrough(After(TimesOf(requests[..i], requests[i].key)), requests[i].now, limit)
  }

  /** How many requests of a key were let through in the span. */
  ghost function Answered(requests: seq<Request>, key: string, limit: int, from: real, to: real): nat {
    if requests == [] then 0
    else
      var n := |requests| - 1;
      Answered(requests[..n], key, limit, from, to) +
      if requests[n].key == key && from <= requests[n].now <= to && !Refused(requests, n, limit) then 1 else 0
  }

  lemma {:induction false} AnsweredIsAdmitted(requests: seq<Request>, key: string, limit: int, from: real, to: real)
    ensures Answered(requests, key, limit, from, to) == Admitted(TimesOf(requests, key), limit, from, to)
  {
    if requests != [] {
      var front, last := requests[..|requests| - 1], requests[|requests| - 1];
      AnsweredIsAdmitted(front, key, limit, from, to);
      OneMoreRequest(requests, key);
      var times := TimesOf(front, key);
      assert (times + [last.now])[..|times|] == times;
    }
  }

  /** So of the requests of any bucket and address, among all others, at most twice the limit are
      answered in any span of a window's length. */
  lemma AnyKeyAnySpanLimit(requests: seq<Request>, key: string, limit: int, from: real)
    requires Arriving(requests)
    ensures Answered(requests, key, limit, from, from + 60.0) <= 2 * if limit < 1 then 1 else limit
  {
    AnsweredIsAdmitted(requests, key, limit, from, from + WINDOW_SECONDS);
    TimesInOrder(requests, key);
    AnySpanLimit(TimesOf(requests, key), limit, from);
  }
}
