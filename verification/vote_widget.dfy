/** One poll section of a blog post: the vote record kept in browser storage,
    which of the two panels (vote form or results) is visible, the status
    message in the results panel, the loading indicator and the tally on
    display. Each operation is a pure transition of that state; the clock,
    the network and the viewport width are parameters. */
module VoteWidget {
  import opened Wrappers
  import opened PollResults
  import opened StatusMessages

  /** Thirty minutes, in milliseconds. */
  const VoteCooldown: int := 30 * 60 * 1000

  /** What the widget stores after a successful vote. */
  datatype VoteRecord = VoteRecord(timestamp: int, option: string)

  /** Browser storage, key by key. Only the widget's own key is ever written. */
  type Storage = map<string, VoteRecord>

  /** Which of the two panels is visible. */
  datatype View = Form | Results

  datatype Widget = Widget(
    storage: Storage,
    view: View,
    panel: seq<Node>,        // children of the results panel
    loading: bool,           // loading indicator visible
    shown: Option<Tally>)    // tally currently drawn, if any

  /** The outcome of the vote request: an HTTP status, or a request that
      threw (network failure) before any response arrived. */
  datatype VoteResponse = Response(status: int) | FetchError

  /** A response counts as success exactly when its status is 2xx. */
  predicate IsOk(status: int)
  {
    200 <= status <= 299
  }

  /** A vote is recorded when the request answers 2xx and browser storage
      accepts the record; writing can fail, for instance over quota. */
  predicate Recorded(response: VoteResponse, writable: bool)
  {
    response.Response? && IsOk(response.status) && writable
  }

  /** The result of submitting a vote: the new state, and whether the user
      saw an error alert. */
  datatype SubmitOutcome = SubmitOutcome(widget: Widget, alerted: bool)

  /** The storage key of a section: its ticker symbol and the URL-encoded
      address of the post. */
  function VoteKey(symbol: string, encodedHref: string): (k: string)
    ensures |k| == 6 + |symbol| + |encodedHref|
    ensures k[..5] == "vote_" && k[|k| - |encodedHref|..] == encodedHref
  {
    "vote_" + symbol + "_" + encodedHref
  }

  /** On one page, sections with different symbols use different keys. */
  lemma {:induction false} VoteKeyInjective(s1: string, s2: string, encodedHref: string)
    requires VoteKey(s1, encodedHref) == VoteKey(s2, encodedHref)
    ensures s1 == s2
  {
    var k := VoteKey(s1, encodedHref);
    assert k == "vote_" + s1 + "_" + encodedHref;
    assert s1 == k[5..5 + |s1|];
    assert k == "vote_" + s2 + "_" + encodedHref;
    assert s2 == k[5..5 + |s2|];
  }

  /** Whether a record is still inside its cooldown at time `now`. The
      comparison is strict: at exactly thirty minutes the record has expired. */
  predicate WithinCooldown(rec: VoteRecord, now: int)
  {
    now - rec.timestamp < VoteCooldown
  }

  /** `key` maps to the same thing (or to nothing) in both stores. */
  predicate SameAt(a: Storage, b: Storage, key: string)
  {
    (key in a <==> key in b) && (key in a ==> a[key] == b[key])
  }

  /** Shows the results panel and hides the form. When a vote is recorded,
      the panel's status message is replaced by one at the front. */
  function ShowOnlyResults(w: Widget, key: string): (r: Widget)
    ensures r.view == Results
    ensures r.storage == w.storage && r.loading == w.loading && r.shown == w.shown
    ensures key in w.storage ==> |r.panel| > 0 && r.panel[0] == Thanks && Others(r.panel) == Others(w.panel)
    ensures key in w.storage ==> ThanksCount(r.panel) == if Thanks in w.panel then ThanksCount(w.panel) else 1
    ensures key !in w.storage ==> r.panel == w.panel
  {
    var panel := if key in w.storage then ShowThanks(w.panel) else w.panel;
    w.(view := Results, panel := panel)
  }

  /** Shows the vote form and hides the results panel. */
  function ShowVoteForm(w: Widget): (r: Widget)
    ensures r.view == Form
    ensures r.storage == w.storage && r.panel == w.panel && r.loading == w.loading && r.shown == w.shown
  {
    w.(view := Form)
  }

  /** The start-up decision: no record means the form; a record inside its
      cooldown means results; an expired record is deleted and the form is
      shown. */
  function CheckVoteStatus(w: Widget, key: string, now: int): (r: Widget)
    ensures r.view == Results <==> key in w.storage && WithinCooldown(w.storage[key], now)
    ensures key in r.storage <==> r.view == Results
    ensures key in r.storage ==> r.storage[key] == w.storage[key]
    ensures r.storage.Keys <= w.storage.Keys
    ensures forall k :: k != key ==> SameAt(r.storage, w.storage, k)
    ensures r.view == Results ==> |r.panel| > 0 && r.panel[0] == Thanks && Others(r.panel) == Others(w.panel)
    ensures r.view == Results ==> ThanksCount(r.panel) == if Thanks in w.panel then ThanksCount(w.panel) else 1
    ensures r.view == Form ==> r.panel == w.panel
    ensures r.loading == w.loading && r.shown == w.shown
  {
    if key in w.storage then
      if WithinCooldown(w.storage[key], now) then ShowOnlyResults(w, key)
      else ShowVoteForm(w.(storage := w.storage - {key}))
    else ShowVoteForm(w)
  }

  /** Draws a freshly fetched snapshot. A failed fetch (`None`) or a snapshot
      the renderer cannot draw leaves the display as it was. */
  function FetchResults(w: Widget, fetched: Option<Snapshot>, width: int): (r: Widget)
    ensures r.storage == w.storage && r.view == w.view && r.panel == w.panel && r.loading == w.loading
    ensures fetched.Some? && Render(fetched.value, width).Some? ==> r.shown == Render(fetched.value, width)
    ensures fetched.None? || Render(fetched.value, width).None? ==> r.shown == w.shown
  {
    match fetched
    case None => w
    case Some(s) =>
      match Render(s, width)
      case None => w
      case Some(t) => w.(shown := Some(t))
  }

  /** A click on a vote button. The loading indicator is up while the
      request runs and down afterwards, whatever happens. A 2xx response
      records the vote, refreshes the tally and switches to results; any
      other response changes nothing. A request that throws, or a storage
      write that throws after a 2xx response, raises an alert and changes
      nothing else. `writable` says whether storage accepts the write. */
  function SubmitVote(w: Widget, key: string, option: string, now: int, response: VoteResponse,
                      writable: bool, fetched: Option<Snapshot>, width: int): (r: SubmitOutcome)
    ensures !r.widget.loading
    ensures r.alerted <==> response == FetchError || (response.Response? && IsOk(response.status) && !writable)
    ensures Recorded(response, writable) ==>
              && r.widget.storage == w.storage[key := VoteRecord(now, option)]
              && r.widget.view == Results
              && |r.widget.panel| > 0 && r.widget.panel[0] == Thanks
              && Others(r.widget.panel) == Others(w.panel)
              && ThanksCount(r.widget.panel) == (if Thanks in w.panel then ThanksCount(w.panel) else 1)
              && r.widget.shown == FetchResults(w, fetched, width).shown
    ensures !Recorded(response, writable) ==> r.widget == w.(loading := false)
    ensures forall k :: k != key ==> SameAt(r.widget.storage, w.storage, k)
  {
    var busy := w.(loading := true);
    match response
    case FetchError => SubmitOutcome(busy.(loading := false), true)
    case Response(status) =>
      if !IsOk(status) then
        SubmitOutcome(busy.(loading := false), false)
      else if !writable then
        SubmitOutcome(busy.(loading := false), true)
      else
        var stored := busy.(storage := busy.storage[key := VoteRecord(now, option)]);
        var refreshed := FetchResults(stored, fetched, width);
        SubmitOutcome(ShowOnlyResults(refreshed, key).(loading := false), false)
  }

  /** Start-up of a section: the cooldown decision, then a results fetch
      that runs whatever the decision was. */
  function Load(w: Widget, key: string, now: int, fetched: Option<Snapshot>, width: int): (r: Widget)
    ensures r.view == CheckVoteStatus(w, key, now).view
    ensures r.storage == CheckVoteStatus(w, key, now).storage
    ensures r.panel == CheckVoteStatus(w, key, now).panel && r.loading == w.loading
    ensures r.shown == FetchResults(w, fetched, width).shown
  {
    FetchResults(CheckVoteStatus(w, key, now), fetched, width)
  }

  /** The cooldown is 1,800,000 ms and the test is strict: one millisecond
      before it runs out the results stay, at the boundary the record is
      deleted and the form comes back. */
  lemma {:induction false} CooldownBoundary(w: Widget, key: string)
    requires key in w.storage
    ensures VoteCooldown == 1_800_000
    ensures CheckVoteStatus(w, key, w.storage[key].timestamp + 1_799_999).view == Results
    ensures CheckVoteStatus(w, key, w.storage[key].timestamp + 1_800_000).view == Form
    ensures key !in CheckVoteStatus(w, key, w.storage[key].timestamp + 1_800_000).storage
  {
  }

  /** Without a record, or with a live one, the start-up decision leaves
      storage as it is. */
  lemma {:induction false} CheckKeepsLiveStorage(w: Widget, key: string, now: int)
    requires key !in w.storage || WithinCooldown(w.storage[key], now)
    ensures CheckVoteStatus(w, key, now).storage == w.storage
  {
    var r := CheckVoteStatus(w, key, now);
    assert r.storage.Keys == w.storage.Keys by {
      forall k | k in w.storage
        ensures k in r.storage
      {
        if k != key {
          assert SameAt(r.storage, w.storage, k);
        }
      }
    }
    forall k | k in w.storage
      ensures r.storage[k] == w.storage[k]
    {
      if k != key {
        assert SameAt(r.storage, w.storage, k);
      }
    }
  }

  /** Running the start-up decision twice at the same moment is the same as
      running it once. */
  lemma {:induction false} CheckVoteStatusIdempotent(w: Widget, key: string, now: int)
    ensures CheckVoteStatus(CheckVoteStatus(w, key, now), key, now) == CheckVoteStatus(w, key, now)
  {
    if key in w.storage && WithinCooldown(w.storage[key], now) {
      ShowThanksIdempotent(w.panel);
    }
  }

  /** Once a record has expired, it stays expired: any later start-up shows
      the form. */
  lemma {:induction false} ExpiryIsPermanent(w: Widget, key: string, now: int, later: int)
    requires CheckVoteStatus(w, key, now).view == Form
    requires now <= later
    ensures CheckVoteStatus(w, key, later).view == Form
  {
  }

  /** A recorded vote followed by a reload shows results exactly while the
      cooldown runs; once it has run out, the reload shows the form and
      deletes the record. */
  lemma {:induction false} VoteThenReload(w: Widget, key: string, option: string, now: int, status: int,
                       fetched: Option<Snapshot>, width: int, later: int)
    requires IsOk(status)
    ensures var voted := SubmitVote(w, key, option, now, Response(status), true, fetched, width).widget;
            && (CheckVoteStatus(voted, key, later).view == Results <==> later - now < VoteCooldown)
            && (later - now >= VoteCooldown ==> key !in CheckVoteStatus(voted, key, later).storage)
            && CheckVoteStatus(voted, key, now).view == Results
  {
    var voted := SubmitVote(w, key, option, now, Response(status), true, fetched, width).widget;
    assert voted.storage[key] == VoteRecord(now, option);
  }

  /** Reloading the page inside the cooldown of a recorded vote brings back
      the results view with exactly one thanks message at its head, the
      rest of the panel as it was before the vote, and the spinner down. */
  lemma {:induction false} ReloadAfterVote(w: Widget, key: string, option: string, now: int, status: int,
                                           fetched: Option<Snapshot>, width: int, later: int, fetched2: Option<Snapshot>)
    requires IsOk(status)
    requires ThanksCount(w.panel) <= 1
    requires now <= later < now + VoteCooldown
    ensures var voted := SubmitVote(w, key, option, now, Response(status), true, fetched, width).widget;
            var reloaded := Load(voted, key, later, fetched2, width);
            && reloaded.view == Results
            && !reloaded.loading
            && |reloaded.panel| > 0 && reloaded.panel[0] == Thanks
            && ThanksCount(reloaded.panel) == 1
            && Others(reloaded.panel) == Others(w.panel)
  {
    var voted := SubmitVote(w, key, option, now, Response(status), true, fetched, width).widget;
    assert voted.storage[key] == VoteRecord(now, option);
    assert ThanksCount(voted.panel) == 1 by {
      var refreshed := FetchResults(w.(loading := true).(storage := w.storage[key := VoteRecord(now, option)]), fetched, width);
      assert voted.panel == ShowThanks(refreshed.panel);
    }
    var checked := CheckVoteStatus(voted, key, later);
    assert checked.panel == ShowThanks(voted.panel);
  }

  /** A vote that was not recorded, for whatever reason, leaves the next
      start-up exactly where it would have been without it. */
  lemma {:induction false} FailedVoteChangesNothing(w: Widget, key: string, option: string, now: int, response: VoteResponse,
                                 writable: bool, fetched: Option<Snapshot>, width: int, later: int)
    requires !Recorded(response, writable)
    ensures var after := SubmitVote(w, key, option, now, response, writable, fetched, width).widget;
            && after.storage == w.storage
            && after.view == w.view
            && CheckVoteStatus(after, key, later).view == CheckVoteStatus(w, key, later).view
            && CheckVoteStatus(after, key, later).storage == CheckVoteStatus(w, key, later).storage
  {
  }

  /** Two sections with different symbols on the same post do not interfere:
      a vote in one leaves the other's start-up decision unchanged. */
  lemma {:induction false} SectionsIndependent(w: Widget, voted: string, other: string, encodedHref: string,
                            option: string, now: int, response: VoteResponse, writable: bool,
                            fetched: Option<Snapshot>, width: int, later: int)
    requires voted != other
    ensures var after := SubmitVote(w, VoteKey(voted, encodedHref), option, now, response, writable, fetched, width).widget;
            CheckVoteStatus(after, VoteKey(other, encodedHref), later).view
              == CheckVoteStatus(w, VoteKey(other, encodedHref), later).view
  {
    var kv, ko := VoteKey(voted, encodedHref), VoteKey(other, encodedHref);
    if kv == ko {
      VoteKeyInjective(voted, other, encodedHref);
    }
    var after := SubmitVote(w, kv, option, now, response, writable, fetched, width).widget;
    assert SameAt(after.storage, w.storage, ko);
  }

  /** The start-up fetch leaves the same tally on screen whatever the
      cooldown state: the tally does not depend on storage or the clock. */
  lemma {:induction false} LoadDrawsRegardlessOfCooldown(w1: Widget, w2: Widget, key: string, now1: int, now2: int,
                                      fetched: Option<Snapshot>, width: int)
    requires w1.shown == w2.shown
    ensures Load(w1, key, now1, fetched, width).shown == Load(w2, key, now2, fetched, width).shown
  {
  }
}
