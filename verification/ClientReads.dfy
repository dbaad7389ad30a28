/** When a client keeps to what repeated calls of `handle_pending_request` would make of its
    bytes: `handle_client` also searches body bytes for the end of a head. */
module ClientReads {
  import opened Text
  import opened Numbers
  import opened ChunkedBody
  import opened HttpRequest
  import opened PendingRequest
  import opened ClientConnection

  /** The pending request of a client, as `Feed` sees it. */
  function SessionOf(c: Client): Session {
    Session(if c.pending then Waiting else Ready, c.buffer, c.body)
  }

  function Fed(c: Client, part: string): Session {
    Feed(c.framing, SessionOf(c), part)
  }

  /** The client with that session, all of its buffer searched. */
  function ClientOf(f: Framing, s: Session): (c: Client)
    ensures c.seen <= |c.buffer|
  {
    Client(s.answer != Ready, f, s.buffer, s.body, |s.buffer|)
  }

  function FateOf(f: Framing, s: Session): Fate {
    if s.answer == Rejected then Closed else Open(ClientOf(f, s))
  }

  //// One read

  lemma {:induction false} HandleShrinks(f: Framing, buffer: string, body: string)
    ensures |Handle(f, buffer, body).buffer| <= |buffer|
  {
    StorageIsKept(f, buffer, body, "");
  }

  lemma {:induction false} BeginConsumes(f: Framing, bytes: string)
    ensures Begin(f, bytes).Open? ==> |Begin(f, bytes).client.buffer| <= |bytes| && Begin(f, bytes).client.seen == 0
  {
    HandleShrinks(f, bytes, "");
  }

  lemma {:induction false} StartConsumes(head: Option<Head>, storage: string, size: nat, pos: nat)
    requires pos <= |storage| && size <= |storage|
    ensures var r := StartRequest(head, storage, size, pos);
      r.Open? ==> |r.client.buffer| + pos <= size && r.client.seen == 0
  {
    if head.Some? && pos <= size {
      BeginConsumes(FramingOf(head.value.method_, head.value.headers), storage[pos..size]);
    }
  }

  lemma {:induction false} ContinueIsQuiet(f: Framing, s: Session, storage: string, pos: nat, parse: Parser)
    requires |s.buffer| <= |storage| && (pos == |storage| || pos + 4 <= |storage|)
    ensures Continue(f, s, storage, pos, parse) == Open(ClientOf(f, s)) <==> pos == |storage|
    ensures var r := Continue(f, s, storage, pos, parse); r.Open? ==> r.client.seen <= |r.client.buffer|
  {
    if pos < |storage| {
      StartConsumes(parse(storage[..pos + 4]), storage, |s.buffer|, pos + 4);
    }
  }

  /** One read does to a client what one more call of `handle_pending_request` would, exactly
      when it closes the client or no end of a head is in the text that is searched. */
  lemma {:induction false} ReadIsFeed(c: Client, part: string, parse: Parser)
    requires c.seen <= |c.buffer|
    ensures OnRead(c, part, parse) == FateOf(c.framing, Fed(c, part)) <==>
      Fed(c, part).answer == Rejected || NoHeadEnd(Searched(c, part))
  {
    StorageSize(c, part);
    ContinueIsQuiet(c.framing, HandleMore(c, part), Storage(c, part), HeadEndFrom(Storage(c, part), c.seen), parse);
  }

  //// Bytes behind the buffer

  lemma BeginIsNotAstray(f: Framing, bytes: string)
    ensures Begin(f, bytes) != Astray
  {
  }

  lemma {:induction false} ContinueAstray(f: Framing, s: Session, storage: string, pos: nat, parse: Parser)
    requires |s.buffer| <= |storage| && (pos == |storage| || pos + 4 <= |storage|)
    ensures Continue(f, s, storage, pos, parse) == Astray <==>
      pos < |storage| && parse(storage[..pos + 4]).Some? && pos + 4 > |s.buffer|
  {
    if pos < |storage| && parse(storage[..pos + 4]).Some? && pos + 4 <= |s.buffer| {
      var head := parse(storage[..pos + 4]).value;
      BeginIsNotAstray(FramingOf(head.method_, head.headers), storage[pos + 4..|s.buffer|]);
    }
  }

  /** The bytes up to a found end of a head lie behind the buffer exactly when handling the
      pending request has taken so many bytes off it; that is undefined in C++. */
  lemma {:induction false} AstrayExactly(c: Client, part: string, parse: Parser)
    requires c.seen <= |c.buffer| <= |Storage(c, part)|
    ensures var (s, storage) := (HandleMore(c, part), Storage(c, part));
      var pos := HeadEndFrom(storage, c.seen);
      OnRead(c, part, parse) == Astray <==>
        s.answer != Rejected && pos < |storage| && parse(storage[..pos + 4]).Some? && pos + 4 > |s.buffer|
  {
    StorageSize(c, part);
    ContinueAstray(c.framing, HandleMore(c, part), Storage(c, part), HeadEndFrom(Storage(c, part), c.seen), parse);
  }

  lemma {:induction false} NotAstrayWhenKept(c: Client, part: string, parse: Parser)
    requires c.seen <= |c.buffer| && Keeps(c, part)
    ensures OnRead(c, part, parse) != Astray
  {
    KeptIsSearched(c, part);
    StorageSize(c, part);
    AstrayExactly(c, part, parse);
  }

  //// Any number of reads

  function Reads(fate: Fate, parts: seq<string>, parse: Parser): Fate
    requires fate.Open? ==> fate.client.seen <= |fate.client.buffer|
    decreases |parts|
  {
    if parts == [] || !fate.Open? then fate else
    ReadKeepsBounds(fate.client, parts[0], parse);
    Reads(OnRead(fate.client, parts[0], parse), parts[1..], parse)
  }

  lemma {:induction false} ReadKeepsBounds(c: Client, part: string, parse: Parser)
    requires c.seen <= |c.buffer|
    ensures OnRead(c, part, parse).Open? ==> OnRead(c, part, parse).client.seen <= |OnRead(c, part, parse).client.buffer|
  {
    StorageSize(c, part);
    ContinueIsQuiet(c.framing, HandleMore(c, part), Storage(c, part), HeadEndFrom(Storage(c, part), c.seen), parse);
  }

  /** Read after read, the client is where feeding its pending request would leave it. */
  predicate Follows(c: Client, parts: seq<string>, parse: Parser)
    requires c.seen <= |c.buffer|
    decreases |parts|
  {
    parts == [] ||
    (&& OnRead(c, parts[0], parse) == FateOf(c.framing, Fed(c, parts[0]))
     && (Fed(c, parts[0]).answer == Rejected || Follows(ClientOf(c.framing, Fed(c, parts[0])), parts[1..], parse)))
  }

  /** No search before the client is closed finds the end of a head. */
  predicate Undisturbed(c: Client, parts: seq<string>)
    requires c.seen <= |c.buffer|
    decreases |parts|
  {
    parts == [] || Fed(c, parts[0]).answer == Rejected ||
    (NoHeadEnd(Searched(c, parts[0])) && Undisturbed(ClientOf(c.framing, Fed(c, parts[0])), parts[1..]))
  }

  /** Main result: reads keep a client on the course of its pending request exactly when no
      search finds the end of a head in the body. */
  lemma {:induction false} ReadsFollowExactly(c: Client, parts: seq<string>, parse: Parser)
    requires c.seen <= |c.buffer|
    ensures Follows(c, parts, parse) <==> Undisturbed(c, parts)
    decreases |parts|
  {
    if parts != [] {
      ReadIsFeed(c, parts[0], parse);
      ReadsFollowExactly(ClientOf(c.framing, Fed(c, parts[0])), parts[1..], parse);
    }
  }

  /** A request whose transfer coding is not supported is fed without effect. */
  lemma FedAsIs(f: Framing, s: Session, part: string)
    requires s.answer != Rejected && (s.answer == Ignored ==> f == Unsupported)
    ensures Fed(ClientOf(f, s), part) == Feed(f, s, part)
  {
  }

  lemma {:induction false} RejectedStays(f: Framing, s: Session, parts: seq<string>)
    requires s.answer == Rejected
    ensures FeedAll(f, s, parts).answer == Rejected
    decreases |parts|
  {
    if parts != [] {
      RejectedStays(f, Feed(f, s, parts[0]), parts[1..]);
    }
  }

  lemma {:induction false} FollowedTo(f: Framing, s: Session, parts: seq<string>, parse: Parser)
    requires s.answer != Rejected && (s.answer == Ignored ==> f == Unsupported)
    requires Undisturbed(ClientOf(f, s), parts)
    ensures Reads(Open(ClientOf(f, s)), parts, parse) == FateOf(f, FeedAll(f, s, parts))
    decreases |parts|
  {
    if parts != [] {
      var c := ClientOf(f, s);
      ReadIsFeed(c, parts[0], parse);
      FedAsIs(f, s, parts[0]);
      var s' := Feed(f, s, parts[0]);
      if s'.answer == Rejected {
        RejectedStays(f, s', parts[1..]);
      } else {
        FollowedTo(f, s', parts[1..], parse);
      }
    }
  }

  /** Undisturbed, the network may cut the bytes of a body as it likes: two ways of cutting
      the same bytes leave the client in the same place. */
  lemma {:induction false} UndisturbedCutsAgree(f: Framing, s: Session, parts: seq<string>, parts': seq<string>, parse: Parser)
    requires s.answer == Waiting && parts != [] && parts' != [] && Concat(parts) == Concat(parts')
    requires Undisturbed(ClientOf(f, s), parts) && Undisturbed(ClientOf(f, s), parts')
    ensures Reads(Open(ClientOf(f, s)), parts, parse) == Reads(Open(ClientOf(f, s)), parts', parse)
  {
    FollowedTo(f, s, parts, parse);
    FollowedTo(f, s, parts', parse);
    FeedAllIsFeed(f, s, parts);
    FeedAllIsFeed(f, s, parts');
  }

  //// What is searched, in terms of the reads

  /** Nothing is taken off the buffer, even with these bytes: no request is pending, or its
      body is longer, or it is ignored. */
  predicate Keeps(c: Client, bytes: string) {
    !c.pending || c.framing == Unsupported || (c.framing.Length? && |c.buffer + bytes| < c.framing.n)
  }

  lemma {:induction false} KeptIsSearched(c: Client, part: string)
    requires c.seen <= |c.buffer| && Keeps(c, part)
    ensures Fed(c, part).buffer == c.buffer + part && Fed(c, part).body == c.body && Fed(c, part).answer != Rejected
    ensures Fed(c, part).answer != Ready <==> c.pending
    ensures Searched(c, part) == c.buffer[c.seen..] + part
  {
    assert Storage(c, part) == c.buffer + part;
  }

  /** Only the first read sees bytes from before; every later one is searched by itself. */
  predicate NoneInOneRead(c: Client, parts: seq<string>)
    requires c.seen <= |c.buffer|
  {
    parts == [] ||
    (NoHeadEnd(c.buffer[c.seen..] + parts[0]) && forall i :: 0 < i < |parts| ==> NoHeadEnd(parts[i]))
  }

  /** While nothing is taken off the buffer, a client is disturbed exactly when the end of a
      head is within one read, or within the unsearched bytes and the first read: for a
      pending request a body that holds one, for none a head noticed. */
  lemma {:induction false} DisturbedWithinOneRead(c: Client, parts: seq<string>)
    requires c.seen <= |c.buffer| && Keeps(c, Concat(parts))
    ensures Undisturbed(c, parts) <==> NoneInOneRead(c, parts)
    decreases |parts|
  {
    if parts != [] {
      KeptIsSearched(c, parts[0]);
      var c' := ClientOf(c.framing, Fed(c, parts[0]));
      assert c'.buffer + Concat(parts[1..]) == c.buffer + Concat(parts);
      DisturbedWithinOneRead(c', parts[1..]);
      if |parts| > 1 {
        assert c'.buffer[c'.seen..] + parts[1] == parts[1];
        ShiftReads(parts);
      }
    }
  }

  lemma ShiftReads(parts: seq<string>)
    requires |parts| > 1
    ensures (forall i :: 0 < i < |parts| ==> NoHeadEnd(parts[i])) <==>
      NoHeadEnd(parts[1]) && forall i :: 0 < i < |parts[1..]| ==> NoHeadEnd(parts[1..][i])
  {
    assert forall i :: 0 < i < |parts[1..]| ==> parts[1..][i] == parts[i + 1];
    assert forall i :: 1 < i < |parts| ==> parts[i] == parts[1..][i - 1];
  }

  /** A head cut inside its final CR LF CR LF is never noticed: the client just waits. */
  lemma {:induction false} CutHeadIsMissed(a: string, b: string, parse: Parser)
    requires NoHeadEnd(a) && NoHeadEnd(b)
    ensures Reads(Open(Client(false, NoBody, "", "", 0)), [a, b], parse) ==
      Open(Client(false, NoBody, a + b, "", |a + b|))
  {
    var s := Session(Ready, "", "");
    var c := ClientOf(NoBody, s);
    assert c == Client(false, NoBody, "", "", 0);
    assert c.buffer[c.seen..] + [a, b][0] == a;
    DisturbedWithinOneRead(c, [a, b]);
    FollowedTo(NoBody, s, [a, b], parse);
    FeedTwo(NoBody, s, a, b);
    assert "" + a + b == a + b;
  }

  lemma FeedTwo(f: Framing, s: Session, a: string, b: string)
    ensures FeedAll(f, s, [a, b]) == Feed(f, Feed(f, s, a), b)
  {
    var s' := Feed(f, s, a);
    assert [a, b][1..] == [b] && [b][1..] == [];
    assert FeedAll(f, s, [a, b]) == FeedAll(f, s', [b]);
    assert FeedAll(f, s', [b]) == FeedAll(f, Feed(f, s', b), []);
  }

  //// Nine bytes of a body, in three ways

  const NINE := Client(true, Length(9), "", "", 0)
  const BLANK_LINE := "a\r\n\r\n"

  /** Read in two parts, the blank line in the first closes the client, although its request
      only waits for more ... */
  lemma {:induction false} BodyClosesClient()
    ensures Fed(NINE, BLANK_LINE).answer == Waiting && OnRead(NINE, BLANK_LINE, HeadIn) == Closed
  {
    KeptIsSearched(NINE, BLANK_LINE);
    assert Searched(NINE, BLANK_LINE) == BLANK_LINE;
    assert Storage(NINE, BLANK_LINE) == BLANK_LINE;
    BlankLineEnds(BLANK_LINE);
    assert BLANK_LINE[..5] == BLANK_LINE;
    NoCapital(BLANK_LINE);
  }

  lemma {:induction false} BlankLineEnds(s: string)
    requires BLANK_LINE <= s
    ensures FindHeadEnd(s) == 1
  {
    assert forall i :: 0 <= i < 5 ==> s[i] == BLANK_LINE[i];
    assert !HeadEndAt(s, 0) && HeadEndAt(s, 1);
  }

  lemma {:induction false} NoCapital(s: string)
    requires forall i :: 0 <= i < |s| ==> !IsCapital(s[i])
    ensures FirstCapital(s) == |s|
  {
  }

  /** ... in one part the request is served, and the client closed all the same, because the
      bytes just erased are searched ... */
  lemma {:induction false} ServedThenClosed()
    ensures var s := Fed(NINE, BLANK_LINE + "bcde");
      s.answer == Ready && s.body == BLANK_LINE + "bcde" && OnRead(NINE, BLANK_LINE + "bcde", HeadIn) == Closed
  {
    var all := BLANK_LINE + "bcde";
    assert "" + all == all && all[..9] == all && all[9..] == "";
    assert Storage(NINE, all) == all;
    assert all[0..] == all;
    BlankLineEnds(all);
    assert all[..5] == BLANK_LINE;
    NoCapital(BLANK_LINE);
  }

  /** ... and cut inside the blank line, the request is served and the client stays. */
  lemma {:induction false} ServedAndKept(parse: Parser)
    ensures Reads(Open(NINE), ["a\r\n", "\r\nbcde"], parse) == Open(Client(false, Length(9), "", "a\r\n\r\nbcde", 0))
  {
    var f, s := Length(9), Session(Waiting, "", "");
    var a, b := "a\r\n", "\r\nbcde";
    assert [a, b][1..] == [b] && [b][1..] == [];
    FirstThree();
    LastSix();
    FollowedTo(f, s, [a, b], parse);
    FeedTwo(f, s, a, b);
  }

  const THREE := Client(true, Length(9), "a\r\n", "", 3)

  lemma {:induction false} FirstThree()
    ensures ClientOf(Length(9), Session(Waiting, "", "")) == NINE
    ensures Fed(NINE, "a\r\n") == Session(Waiting, "a\r\n", "") && ClientOf(Length(9), Fed(NINE, "a\r\n")) == THREE
    ensures Searched(NINE, "a\r\n") == "a\r\n" && NoHeadEnd("a\r\n")
  {
    KeptIsSearched(NINE, "a\r\n");
  }

  lemma {:induction false} LastSix()
    ensures Fed(THREE, "\r\nbcde") == Session(Ready, "", "a\r\n\r\nbcde")
    ensures Searched(THREE, "\r\nbcde") == "\r\nbcde" && NoHeadEnd("\r\nbcde")
  {
    var part := "\r\nbcde";
    var all := "a\r\n" + part;
    assert all == "a\r\n\r\nbcde";
    AllNine(all);
    assert Fed(THREE, part) == Session(Ready, "", all);
    assert Storage(THREE, part) == all;
    assert all[3..] == part;
    NoneInSix(part);
  }

  lemma {:induction false} AllNine(all: string)
    requires |all| == 9
    ensures Handle(Length(9), all, "") == Session(Ready, "", all) && Behind(Length(9), all, "") == all
  {
    assert all[9..] == "" && all[..9] == all && all[0..] == all;
  }

  lemma {:induction false} NoneInSix(part: string)
    requires |part| == 6 && part[2] == 'b' && part[3] == 'c'
    ensures NoHeadEnd(part)
  {
    assert !HeadEndAt(part, 0) && !HeadEndAt(part, 1) && !HeadEndAt(part, 2);
  }
}
