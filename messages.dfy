// src/output/cui/components/messages.rs: the status-line log of the
// interactive display, which keeps at most 100 messages, dropping the oldest.

module MessageLog {
  import opened Common

  const MAX_MESSAGES: nat := 100

  /** The last `max` entries of `s` (all of them when there are fewer). */
  function KeepLast(s: seq<string>, max: nat): (r: seq<string>)
    ensures |r| == Min(|s|, max)
    ensures r == s[|s| - |r|..]
  {
    if |s| > max then s[|s| - max..] else s
  }

  /** push_limited: push `v`, then drain from the front whatever exceeds `max`. */
  method PushLimited(messages: seq<string>, v: string, max: nat) returns (r: seq<string>)
    ensures |r| == Min(|messages| + 1, max)
    ensures r == (messages + [v])[|messages| + 1 - |r|..]
    ensures |messages| < max ==> r == messages + [v]
    ensures r == KeepLast(messages + [v], max)
  {
    r := messages + [v];
    if |r| > max {
      r := r[|r| - max..];
    }
  }

  /** Trimming before a push loses nothing that trimming after it would keep:
      a bounded log always holds the last entries of its whole history. */
  lemma {:induction false} KeepLastPush(s: seq<string>, v: string, max: nat)
    ensures KeepLast(KeepLast(s, max) + [v], max) == KeepLast(s + [v], max)
  {
    var k := KeepLast(s, max);
    var a, b := k + [v], s + [v];
    assert k == s[|s| - |k|..];
    assert a == b[|b| - |a|..];
    var ra, rb := KeepLast(a, max), KeepLast(b, max);
    assert |ra| == |rb|;
    assert ra == a[|a| - |ra|..];
    assert rb == b[|b| - |rb|..];
  }

  /** Pushing each of `vs` in turn. */
  function PushAll(log: seq<string>, vs: seq<string>, max: nat): seq<string>
    decreases |vs|
  {
    if vs == [] then log else PushAll(KeepLast(log + [vs[0]], max), vs[1..], max)
  }

  /** Starting from an empty log, the log is the last `max` messages ever pushed. */
  lemma {:induction false} PushAllKeepsLast(log: seq<string>, vs: seq<string>, max: nat)
    requires |log| <= max
    ensures PushAll(log, vs, max) == KeepLast(log + vs, max)
    decreases |vs|
  {
    if vs == [] {
      assert log + vs == log;
    } else {
      var next := KeepLast(log + [vs[0]], max);
      calc {
        PushAll(log, vs, max);
        PushAll(next, vs[1..], max);
        { PushAllKeepsLast(next, vs[1..], max); }
        KeepLast(next + vs[1..], max);
        { KeepLastConcat(log, vs[0], vs[1..], max); }
        KeepLast(log + [vs[0]] + vs[1..], max);
        { assert vs == [vs[0]] + vs[1..]; assert log + [vs[0]] + vs[1..] == log + vs; }
        KeepLast(log + vs, max);
      }
    }
  }

  lemma {:induction false} KeepLastConcat(log: seq<string>, v: string, rest: seq<string>, max: nat)
    ensures KeepLast(KeepLast(log + [v], max) + rest, max) == KeepLast(log + [v] + rest, max)
    decreases |rest|
  {
    if rest == [] {
      assert KeepLast(log + [v], max) + rest == KeepLast(log + [v], max);
      assert log + [v] + rest == log + [v];
    } else {
      var k := KeepLast(log + [v], max);
      var front := rest[..|rest| - 1];
      var last := rest[|rest| - 1];
      KeepLastConcat(log, v, front, max);
      assert k + rest == (k + front) + [last];
      assert log + [v] + rest == (log + [v] + front) + [last];
      KeepLastPush(k + front, last, max);
      KeepLastPush(log + [v] + front, last, max);
    }
  }

  class Messages {
    var messages: seq<string>

    /** Messages::new: an empty log. */
    constructor ()
      ensures messages == [] && Last() == ""
    {
      messages := [];
    }

    /** Messages::push: the log keeps its last 100 entries and `v` is the newest. */
    method Push(v: string)
      modifies this
      ensures messages == KeepLast(old(messages) + [v], MAX_MESSAGES)
      ensures |messages| <= MAX_MESSAGES && Last() == v
    {
      messages := PushLimited(messages, v, MAX_MESSAGES);
    }

    /** Messages::last: the newest entry, or "" when there is none. */
    function Last(): (s: string)
      reads this
      ensures messages == [] ==> s == ""
      ensures messages != [] ==> s == messages[|messages| - 1]
    {
      if messages == [] then "" else messages[|messages| - 1]
    }
  }
}
