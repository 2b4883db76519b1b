/**
 Fetching spend and sent events from the elected peer, one page at a time.
 Both cursors ask for pages of a fixed size and both advance by that size
 whenever a page is accepted, whatever it held. The loop ends on a page
 with both lists empty or on a transport error (returning what was
 gathered), aborts on a body that does not decode (returning nothing), and
 asks again with the same cursors after a bad status or an unreadable body.

 What the peer serves is a function of the two cursors; what happened to
 each request is given as a sequence, which is the loop's fuel. When it
 runs out while the loop would go on, the fetch is `Pending`.
 */
module Pagination {
  import opened Wire
  import opened Registry

  const PageSize: nat := 256

  /** The two event lists of one response, or of everything gathered. */
  datatype Page<S, T> = Page(spend: seq<S>, sent: seq<T>)

  predicate IsEmpty<S, T>(p: Page<S, T>) {
    p.spend == [] && p.sent == []
  }

  function Join<S, T>(p: Page<S, T>, q: Page<S, T>): Page<S, T> {
    Page(p.spend + q.spend, p.sent + q.sent)
  }

  /** What happened to one request: the page at the current cursors was
      received and decoded, or the request failed at `fault`. */
  datatype Exchange = Served | Broken(fault: Fault)

  /** The loop's state: both cursors and the events gathered so far. */
  datatype Cursor<S, T> = Cursor(fromSpend: nat, fromSent: nat, got: Page<S, T>)

  datatype Fetched<S, T> =
    | Events(spend: seq<S>, sent: seq<T>, height: nat)
    | Undecoded
    | Pending(at: Cursor<S, T>)

  /** What one turn of the loop decided. */
  datatype Next<S, T> = Again(cursor: Cursor<S, T>) | Finish | Abort

  /** One turn of the loop at cursor `c`. */
  function Turn<S, T>(serve: (nat, nat) -> Page<S, T>, c: Cursor<S, T>, x: Exchange): (r: Next<S, T>)
    ensures r.Abort? <==> x == Broken(Json)
    ensures r.Finish? <==> x == Broken(Transport) || (x == Served && IsEmpty(serve(c.fromSpend, c.fromSent)))
    ensures x == Broken(Status) || x == Broken(Body) ==> r == Again(c)
    ensures x == Served && !IsEmpty(serve(c.fromSpend, c.fromSent)) ==>
      r.Again? && r.cursor.fromSpend == c.fromSpend + PageSize && r.cursor.fromSent == c.fromSent + PageSize
    ensures r.Again? ==>
      && r.cursor.fromSpend - c.fromSpend == r.cursor.fromSent - c.fromSent
      && (r.cursor.fromSpend == c.fromSpend || r.cursor.fromSpend == c.fromSpend + PageSize)
      && c.got.spend <= r.cursor.got.spend && c.got.sent <= r.cursor.got.sent
    ensures r.Again? && r.cursor.fromSpend != c.fromSpend ==>
      r.cursor.got == Join(c.got, serve(c.fromSpend, c.fromSent))
  {
    match x
    case Broken(fault) =>
      if fault == Transport then Finish
      else if fault == Json then Abort
      else Again(c)
    case Served =>
      var page := serve(c.fromSpend, c.fromSent);
      if IsEmpty(page) then Finish
      else Again(Cursor(c.fromSpend + PageSize, c.fromSent + PageSize, Join(c.got, page)))
  }

  /** The loop, one exchange per turn. What it returns or stands at extends
      what it started with; the cursors have moved forward together; the
      height returned is the one it was given. */
  function Pull<S, T>(serve: (nat, nat) -> Page<S, T>, c: Cursor<S, T>, height: nat, links: seq<Exchange>): (r: Fetched<S, T>)
    ensures r.Events? ==> r.height == height && c.got.spend <= r.spend && c.got.sent <= r.sent
    ensures r.Pending? ==>
      && c.got.spend <= r.at.got.spend && c.got.sent <= r.at.got.sent
      && c.fromSpend <= r.at.fromSpend && r.at.fromSpend - c.fromSpend == r.at.fromSent - c.fromSent
    decreases |links|
  {
    if |links| == 0 then Pending(c)
    else
      match Turn(serve, c, links[0])
      case Again(next) =>
        var r := Pull(serve, next, height, links[1..]);
        (match r
         case Events(sp, se, _) => PrefixTrans(c.got.spend, next.got.spend, sp); PrefixTrans(c.got.sent, next.got.sent, se); r
         case Pending(at) => PrefixTrans(c.got.spend, next.got.spend, at.got.spend); PrefixTrans(c.got.sent, next.got.sent, at.got.sent); r
         case Undecoded => r)
      case Finish => Events(c.got.spend, c.got.sent, height)
      case Abort => Undecoded
  }

  /** Fetches from the elected peer, if there is one; the third component
      of the result is the height that peer last reported. */
  function FetchFromElected<S, T>(elected: Option<Peer>, serve: (nat, nat) -> Page<S, T>,
                                  fromSpend: nat, fromSent: nat, links: seq<Exchange>): (r: Fetched<S, T>)
    ensures elected.None? ==> r == Events([], [], 0)
    ensures elected.Some? && r.Events? ==> r.height == elected.value.currentBlock
  {
    match elected
    case None => Events([], [], 0)
    case Some(peer) =>
      var start := Cursor(fromSpend, fromSent, Page([], []));
      Pull(serve, start, peer.currentBlock, links)
  }

  /** The first `k` pages served from cursors `(fs, ft)` onwards, joined. */
  function Collected<S, T>(serve: (nat, nat) -> Page<S, T>, fs: nat, ft: nat, k: nat): Page<S, T>
    decreases k
  {
    if k == 0 then Page([], [])
    else Join(serve(fs, ft), Collected(serve, fs + PageSize, ft + PageSize, k - 1))
  }

  /** None of the first `k` pages served from `(fs, ft)` onwards is empty. */
  predicate AllFull<S, T>(serve: (nat, nat) -> Page<S, T>, fs: nat, ft: nat, k: nat) {
    forall i :: 0 <= i < k ==> !IsEmpty(serve(fs + PageSize * i, ft + PageSize * i))
  }

  /** The cursor after accepting `k` pages from `c`. */
  function After<S, T>(serve: (nat, nat) -> Page<S, T>, c: Cursor<S, T>, k: nat): Cursor<S, T> {
    Cursor(c.fromSpend + PageSize * k, c.fromSent + PageSize * k,
           Join(c.got, Collected(serve, c.fromSpend, c.fromSent, k)))
  }

  predicate NoTransportFault(links: seq<Exchange>) {
    forall j :: 0 <= j < |links| ==> links[j] != Broken(Transport)
  }

  /** Everything the loop returns or stands at is some number `k` of
      accepted, non-empty pages joined in order after what it started with;
      each accepted page moved both cursors by exactly one page. Unless a
      transport error cut it short, it returns at the first empty page. It
      is undecoded only if some body did not decode. */
  lemma {:induction false} PullCollects<S, T>(serve: (nat, nat) -> Page<S, T>, c: Cursor<S, T>, height: nat, links: seq<Exchange>)
    ensures match Pull(serve, c, height, links)
      case Events(sp, se, h) =>
        exists k: nat :: AllFull(serve, c.fromSpend, c.fromSent, k) &&
          var a := After(serve, c, k);
          Page(sp, se) == a.got && (NoTransportFault(links) ==> IsEmpty(serve(a.fromSpend, a.fromSent)))
      case Pending(at) =>
        exists k: nat :: AllFull(serve, c.fromSpend, c.fromSent, k) && at == After(serve, c, k)
      case Undecoded =>
        exists j :: 0 <= j < |links| && links[j] == Broken(Json)
    decreases |links|
  {
    assert After(serve, c, 0) == c;
    if |links| > 0 {
      var t := Turn(serve, c, links[0]);
      var rest := links[1..];
      if t.Again? {
        var c' := t.cursor;
        PullCollects(serve, c', height, rest);
        if c' == c {
        } else {
          ShiftAfter(serve, c, c');
        }
        assert forall j :: 0 <= j < |rest| ==> rest[j] == links[j + 1];
        assert links[0] != Broken(Transport);
        assert NoTransportFault(links) ==> NoTransportFault(rest);
        if Pull(serve, c', height, rest).Undecoded? {
          var j :| 0 <= j < |rest| && rest[j] == Broken(Json);
          assert links[j + 1] == Broken(Json);
        }
      }
    }
  }

  /** Accepting one page and then `k` more is accepting `k + 1`. */
  lemma ShiftAfter<S, T>(serve: (nat, nat) -> Page<S, T>, c: Cursor<S, T>, c': Cursor<S, T>)
    requires !IsEmpty(serve(c.fromSpend, c.fromSent))
    requires c' == Cursor(c.fromSpend + PageSize, c.fromSent + PageSize, Join(c.got, serve(c.fromSpend, c.fromSent)))
    ensures forall k: nat :: After(serve, c', k) == After(serve, c, k + 1)
    ensures forall k: nat :: AllFull(serve, c'.fromSpend, c'.fromSent, k) ==> AllFull(serve, c.fromSpend, c.fromSent, k + 1)
  {
    forall k: nat
      ensures After(serve, c', k) == After(serve, c, k + 1)
    {
      var p := serve(c.fromSpend, c.fromSent);
      var rest := Collected(serve, c'.fromSpend, c'.fromSent, k);
      assert Collected(serve, c.fromSpend, c.fromSent, k + 1) == Join(p, rest);
      assert Join(Join(c.got, p), rest) == Join(c.got, Join(p, rest));
    }
    forall k: nat | AllFull(serve, c'.fromSpend, c'.fromSent, k)
      ensures AllFull(serve, c.fromSpend, c.fromSent, k + 1)
    {
      forall i | 0 <= i < k + 1
        ensures !IsEmpty(serve(c.fromSpend + PageSize * i, c.fromSent + PageSize * i))
      {
        if i > 0 {
          assert c.fromSpend + PageSize * i == c'.fromSpend + PageSize * (i - 1);
          assert c.fromSent + PageSize * i == c'.fromSent + PageSize * (i - 1);
        }
      }
    }
  }

  /** Bad statuses and unreadable bodies are retried forever with the same
      cursors: no such run of failures ever ends the fetch. */
  lemma {:induction false} RetriesDoNotAdvance<S, T>(serve: (nat, nat) -> Page<S, T>, c: Cursor<S, T>, height: nat, links: seq<Exchange>)
    requires forall j :: 0 <= j < |links| ==> links[j] == Broken(Status) || links[j] == Broken(Body)
    ensures Pull(serve, c, height, links) == Pending(c)
    decreases |links|
  {
    if |links| > 0 {
      RetriesDoNotAdvance(serve, c, height, links[1..]);
    }
  }

  /** The part of `xs` a positional page endpoint serves at cursor `from`. */
  function Window<X>(xs: seq<X>, from: nat): (w: seq<X>)
    ensures |w| <= PageSize
  {
    var lo := if from < |xs| then from else |xs|;
    var hi := if from + PageSize < |xs| then from + PageSize else |xs|;
    xs[lo..hi]
  }

  function Suffix<X>(xs: seq<X>, from: nat): seq<X> {
    xs[(if from < |xs| then from else |xs|)..]
  }

  /** A peer that serves windows of its own two event lists. */
  function HonestPeer<S, T>(spend: seq<S>, sent: seq<T>): (nat, nat) -> Page<S, T> {
    (a: nat, b: nat) => Page(Window(spend, a), Window(sent, b))
  }

  /** Pages an honest peer serves from `(a, b)` before the empty one. */
  function PagesLeft(m: nat, n: nat, a: nat, b: nat): nat
    decreases (if a < m then m - a else 0) + (if b < n then n - b else 0)
  {
    if a >= m && b >= n then 0 else 1 + PagesLeft(m, n, a + PageSize, b + PageSize)
  }

  lemma WindowThenSuffix<X>(xs: seq<X>, from: nat)
    ensures Window(xs, from) + Suffix(xs, from + PageSize) == Suffix(xs, from)
  {
  }

  /** One turn against an honest peer: it finishes once both lists are
      exhausted and otherwise accepts the two windows at the cursors. */
  lemma HonestTurn<S, T>(spend: seq<S>, sent: seq<T>, c: Cursor<S, T>)
    ensures var serve := HonestPeer(spend, sent);
      Turn(serve, c, Served) ==
        if c.fromSpend >= |spend| && c.fromSent >= |sent| then Finish
        else Again(Cursor(c.fromSpend + PageSize, c.fromSent + PageSize,
                          Join(c.got, Page(Window(spend, c.fromSpend), Window(sent, c.fromSent)))))
  {
    var page := HonestPeer(spend, sent)(c.fromSpend, c.fromSent);
    assert page == Page(Window(spend, c.fromSpend), Window(sent, c.fromSent));
  }

  /** Round trip: from a peer that serves windows of its lists, and with
      every request getting through, the fetch returns exactly the rest of
      both lists from the starting cursors, nothing missing or repeated. */
  lemma {:induction false} HonestPeerRoundTrip<S, T>(spend: seq<S>, sent: seq<T>, c: Cursor<S, T>, height: nat, links: seq<Exchange>)
    requires forall j :: 0 <= j < |links| ==> links[j] == Served
    requires |links| > PagesLeft(|spend|, |sent|, c.fromSpend, c.fromSent)
    ensures Pull(HonestPeer(spend, sent), c, height, links) ==
      Events(c.got.spend + Suffix(spend, c.fromSpend), c.got.sent + Suffix(sent, c.fromSent), height)
    decreases |links|
  {
    HonestTurn(spend, sent, c);
    assert links[0] == Served;
    if !(c.fromSpend >= |spend| && c.fromSent >= |sent|) {
      var c' := Cursor(c.fromSpend + PageSize, c.fromSent + PageSize,
                       Join(c.got, Page(Window(spend, c.fromSpend), Window(sent, c.fromSent))));
      var rest := links[1..];
      assert forall j :: 0 <= j < |rest| ==> rest[j] == links[j + 1];
      HonestPeerRoundTrip(spend, sent, c', height, rest);
      AppendWindow(c.got.spend, spend, c.fromSpend);
      AppendWindow(c.got.sent, sent, c.fromSent);
    }
  }

  lemma AppendWindow<X>(acc: seq<X>, xs: seq<X>, from: nat)
    ensures (acc + Window(xs, from)) + Suffix(xs, from + PageSize) == acc + Suffix(xs, from)
  {
    WindowThenSuffix(xs, from);
  }
}
