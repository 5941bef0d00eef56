/** The children of the results panel (`#voteResults`) as far as the
    "Thanks for participating" status message is concerned. The widget
    removes the first existing status message and inserts a fresh one at the
    front, so repeated calls never pile messages up. */
module StatusMessages {

  /** A child of the results panel: the status message, or any other node
      (the results container, the totals line), told apart by an id. */
  datatype Node = Thanks | Other(id: nat)

  /** Number of status messages among the nodes. */
  function ThanksCount(ns: seq<Node>): (n: nat)
    ensures n == 0 <==> Thanks !in ns
    ensures n <= |ns|
  {
    if ns == [] then 0
    else (if ns[0] == Thanks then 1 else 0) + ThanksCount(ns[1..])
  }

  /** The nodes other than status messages, in their original order. */
  function Others(ns: seq<Node>): (r: seq<Node>)
    ensures Thanks !in r
    ensures forall n :: n in r <==> n in ns && n != Thanks
  {
    if ns == [] then []
    else if ns[0] == Thanks then Others(ns[1..])
    else [ns[0]] + Others(ns[1..])
  }

  /** Removes the first status message, if there is one. */
  function RemoveFirstThanks(ns: seq<Node>): (r: seq<Node>)
    ensures Thanks !in ns ==> r == ns
    ensures |r| == if Thanks in ns then |ns| - 1 else |ns|
  {
    if ns == [] then []
    else if ns[0] == Thanks then ns[1..]
    else [ns[0]] + RemoveFirstThanks(ns[1..])
  }

  /** Removing the first status message removes one status message and
      nothing else. */
  lemma {:induction false} RemoveFirstThanksCounts(ns: seq<Node>)
    ensures ThanksCount(RemoveFirstThanks(ns)) == if Thanks in ns then ThanksCount(ns) - 1 else ThanksCount(ns)
    ensures Others(RemoveFirstThanks(ns)) == Others(ns)
  {
    if ns != [] && ns[0] != Thanks {
      RemoveFirstThanksCounts(ns[1..]);
      var r := RemoveFirstThanks(ns);
      assert r == [ns[0]] + RemoveFirstThanks(ns[1..]);
      assert r[0] == ns[0] && r[1..] == RemoveFirstThanks(ns[1..]);
      assert Thanks in ns <==> Thanks in ns[1..] by {
        assert ns == [ns[0]] + ns[1..];
      }
    }
  }

  /** The message removed is the first one: whatever comes before it (no
      status message) and whatever comes after it stays, in order. */
  lemma {:induction false} RemoveFirstThanksSplit(before: seq<Node>, after: seq<Node>)
    requires Thanks !in before
    ensures RemoveFirstThanks(before + [Thanks] + after) == before + after
  {
    var ns := before + [Thanks] + after;
    if before == [] {
      assert ns == [Thanks] + after;
    } else {
      var tail := before[1..] + [Thanks] + after;
      assert RemoveFirstThanks(ns) == [before[0]] + RemoveFirstThanks(tail) by {
        assert ns[0] == before[0] && before[0] != Thanks;
        assert ns[1..] == tail;
      }
      RemoveFirstThanksSplit(before[1..], after);
      assert [before[0]] + (before[1..] + after) == before + after;
    }
  }

  /** Shows the status message: the old one (if any) is removed and a new one
      goes in front of every other child of the panel. */
  function ShowThanks(ns: seq<Node>): (r: seq<Node>)
    ensures |r| > 0 && r[0] == Thanks
    ensures ThanksCount(r) == if Thanks in ns then ThanksCount(ns) else 1
    ensures Others(r) == Others(ns)
  {
    RemoveFirstThanksCounts(ns);
    var r := [Thanks] + RemoveFirstThanks(ns);
    assert r[1..] == RemoveFirstThanks(ns);
    r
  }

  /** Showing the message twice leaves the panel as showing it once. */
  lemma {:induction false} ShowThanksIdempotent(ns: seq<Node>)
    ensures ShowThanks(ShowThanks(ns)) == ShowThanks(ns)
  {
  }

  /** A panel holding at most one status message ends up holding exactly one,
      at the front. */
  lemma {:induction false} ShowThanksLeavesOne(ns: seq<Node>)
    requires ThanksCount(ns) <= 1
    ensures ShowThanks(ns)[0] == Thanks
    ensures Thanks !in ShowThanks(ns)[1..]
  {
    var r := ShowThanks(ns);
    assert r == [Thanks] + r[1..];
    ThanksCountPrepend(r[1..]);
  }

  lemma {:induction false} ThanksCountPrepend(ns: seq<Node>)
    ensures ThanksCount([Thanks] + ns) == 1 + ThanksCount(ns)
  {
    assert ([Thanks] + ns)[1..] == ns;
  }
}
