/**
 * The device-facing HTTP handler `handle_client` (ft-zktco.py:264-350,
 * FT-ZK.py:154-274) and the per-cycle reset of the "command already sent"
 * flags (ft-zktco.py:352-354, 369-374). A request is dispatched on its method,
 * path and query; replies always carry a `Content-Length` equal to the byte
 * length of the body, and a poll of `/iclock/getrequest` is answered, once per
 * port and cycle, with a numbered ATTLOG query command.
 */
module Gateway {
  import opened Wrappers
  import opened Text
  import opened Stamp
  import opened Protocol

  /** What `urlparse` and `parse_qs` make of a request target: the path and the query's value lists. */
  datatype Target = Target(path: string, query: map<string, seq<string>>)

  /** A parsed ATTLOG upload handed to the log writer. */
  datatype Packet = Packet(attlog: string, sn: string)

  /** The parts of the reply header that vary: the `Date` value and the `Content-Length`. */
  datatype Header = Header(date: string, contentLength: nat)

  /** How one connection ends: closed without a reply, or answered (possibly with a packet queued). */
  datatype Outcome = Closed | Replied(header: Header, body: string, packet: Option<Packet>)

  /** The shared poll state: the command counter and each port's "command sent" flag. */
  datatype PollState = PollState(counter: int, sent: map<int, bool>)

  /** One connection: the decoded bytes, the listening port, the local (UTC+2) clock and the `Date` header value. */
  datatype Request = Request(data: string, port: int, today: DateTime, date: string)

  /** The four kinds of request `handle_client` tells apart, and the lookups that raise. */
  datatype Route = Poll(info: bool) | Upload | Options(sn: string) | Fallback | Raises

  const CounterStart: int := 1000

  // ---------------------------------------------------------------- the request line

  /** `parts = data.splitlines()[0].split()`: the method and target, or `None` when the connection is closed unanswered. */
  function RequestLine(data: string): (r: Option<(string, string)>)
    ensures r.Some? <==> data != [] && |Split(SplitLines(data)[0])| >= 2
    ensures r.Some? ==> r.value.0 == Split(SplitLines(data)[0])[0] && r.value.1 == Split(SplitLines(data)[0])[1]
  {
    if data == [] then None
    else
      var parts := Split(SplitLines(data)[0]);
      if |parts| < 2 then None else Some((parts[0], parts[1]))
  }

  /** `qs.get(k, [""])[0]`; `None` where indexing an empty list raises `IndexError`. */
  function QueryFirst(query: map<string, seq<string>>, k: string): (r: Option<string>)
    ensures k !in query ==> r == Some("")
    ensures k in query && query[k] != [] ==> r == Some(query[k][0])
    ensures r.None? <==> k in query && query[k] == []
  {
    if k !in query then Some("")
    else if query[k] == [] then None
    else Some(query[k][0])
  }

  /** The dispatch of ft-zktco.py:282, 307 and 324, tried in that order. */
  function RouteOf(verb: string, t: Target): (r: Route)
    ensures r.Poll? <==> Upper(verb) == "GET" && t.path == "/iclock/getrequest"
    ensures r.Poll? ==> r.info == ("INFO" in t.query)
    ensures r.Upload? <==> Upper(verb) == "POST" && t.path == "/iclock/cdata"
                           && QueryFirst(t.query, "table").Some? && Upper(QueryFirst(t.query, "table").value) == "ATTLOG"
    ensures r.Options? <==> Upper(verb) == "GET" && t.path == "/iclock/cdata"
                            && QueryFirst(t.query, "options") == Some("all") && QueryFirst(t.query, "SN").Some?
    ensures r.Options? ==> QueryFirst(t.query, "SN") == Some(r.sn)
    ensures r.Raises? <==>
      || (Upper(verb) == "POST" && t.path == "/iclock/cdata" && QueryFirst(t.query, "table").None?)
      || (Upper(verb) == "GET" && t.path == "/iclock/cdata"
          && (QueryFirst(t.query, "options").None?
              || (QueryFirst(t.query, "options") == Some("all") && QueryFirst(t.query, "SN").None?)))
    ensures r.Fallback? <==>
      && !(Upper(verb) == "GET" && t.path == "/iclock/getrequest")
      && !(Upper(verb) == "POST" && t.path == "/iclock/cdata"
           && (QueryFirst(t.query, "table").None? || Upper(QueryFirst(t.query, "table").value) == "ATTLOG"))
      && !(Upper(verb) == "GET" && t.path == "/iclock/cdata"
           && (QueryFirst(t.query, "options").None? || QueryFirst(t.query, "options") == Some("all")))
  {
    var m := Upper(verb);
    if m == "GET" && t.path == "/iclock/getrequest" then Poll("INFO" in t.query)
    else if m == "POST" && t.path == "/iclock/cdata" && QueryFirst(t.query, "table").None? then Raises
    else if m == "POST" && t.path == "/iclock/cdata" && Upper(QueryFirst(t.query, "table").value) == "ATTLOG" then Upload
    else if m == "GET" && t.path == "/iclock/cdata" then
      match QueryFirst(t.query, "options")
      case None => Raises
      case Some(o) =>
        if o != "all" then Fallback
        else
          match QueryFirst(t.query, "SN")
          case None => Raises
          case Some(sn) => Options(sn)
    else Fallback
  }

  // ---------------------------------------------------------------- replies

  /** The reply header as sent: the fixed status line and fields, then `Date` and `Content-Length`. */
  function HeaderText(h: Header): string
  {
    "HTTP/1.1 200 OK\r\nContent-Type: text/plain\r\nAccept-Ranges: bytes\r\nDate: " + h.date
    + "\r\nContent-Length: " + NatToString(h.contentLength) + "\r\n\r\n"
  }

  /** A reply: the header announces the UTF-8 length of the body. */
  function Reply(date: string, body: string, packet: Option<Packet>): (o: Outcome)
    ensures o.Replied? && o.body == body && o.packet == packet
    ensures o.header == Header(date, Utf8Length(body))
  {
    Replied(Header(date, Utf8Length(body)), body, packet)
  }

  /** The number on the header's last line, read back as a client would: after the last space, before the blank line. */
  function DeclaredLength(header: string): Option<int>
  {
    if |header| < 4 || header[|header| - 4..] != "\r\n\r\n" then None
    else
      var line := header[..|header| - 4];
      match LastIndexOf(line, ' ')
      case None => None
      case Some(k) => ParseInt(line[k + 1..])
  }

  lemma LastIndexOfAt(s: string, c: char, k: nat)
    requires k < |s| && s[k] == c && c !in s[k + 1..]
    ensures LastIndexOf(s, c) == Some(k)
  {
  }

  /** Whatever the `Date` value, the header declares exactly the length it was built with. */
  lemma DeclaredLengthOfHeader(date: string, length: nat)
    ensures DeclaredLength(HeaderText(Header(date, length))) == Some(length)
  {
    var digits := NatToString(length);
    var prefix := "HTTP/1.1 200 OK\r\nContent-Type: text/plain\r\nAccept-Ranges: bytes\r\nDate: " + date + "\r\nContent-Length: ";
    var header := HeaderText(Header(date, length));
    assert header == prefix + digits + "\r\n\r\n";
    var line := header[..|header| - 4];
    assert line == prefix + digits;
    assert header[|header| - 4..] == "\r\n\r\n";
    assert line[|prefix| - 1] == ' ';
    assert line[|prefix|..] == digits;
    assert ' ' !in digits by {
      forall i | 0 <= i < |digits| ensures digits[i] != ' ' {
        assert IsDigit(digits[i]);
      }
    }
    LastIndexOfAt(line, ' ', |prefix| - 1);
    IntRoundTrip(length);
  }

  /** The poll command `C:<n>:DATA QUERY ATTLOG StartTime=<dt1>\tEndTime=<dt2>`. */
  function CommandBody(n: int, dt1: string, dt2: string): string
  {
    "C:" + IntToString(n) + ":DATA QUERY ATTLOG StartTime=" + dt1 + "\tEndTime=" + dt2
  }

  lemma CommandBodyPrefix(n: int, dt1: string, dt2: string)
    ensures StartsWith(CommandBody(n, dt1, dt2), "C:")
  {
    var b := CommandBody(n, dt1, dt2);
    assert b[0] == 'C' && b[1] == ':';
    assert b[..2] == "C:";
  }

  const OptionsTail: string :=
    "\nStamp=9999\nOpStamp=9999\nPhotoStamp=0\n"
    + "TransFlag=TransData AttLog\tOpLog\tAttPhoto\tEnrollUser\tChgUser\tEnrollFP\tChgFP\tFPImag\tFACE\tUserPic\tWORKCODE\tBioPhoto\n"
    + "ErrorDelay=120\nDelay=10\nTimeZone=120\nTransTimes=\nTransInterval=30\nSyncTime=0\nRealtime=1\n"
    + "ServerVer=2.2.14 2025/02/19\nPushProtVer=2.4.1\nPushOptionsFlag=1\nATTLOGStamp=9999\n"
    + "OPERLOGStamp=9999\nATTPHOTOStamp=0\nServerName=Logtime Server\nMultiBioDataSupport=0:1:0:0:0:0:0:0:0:"

  /** The options reply for the device `sn`. */
  function OptionsBody(sn: string): (body: string)
    ensures StartsWith(body, "GET OPTION FROM:" + sn)
  {
    "GET OPTION FROM:" + sn + OptionsTail
  }

  /** A command reply is recognisable: it is the only body that starts with "C:". */
  predicate IsCommand(o: Outcome)
  {
    o.Replied? && StartsWith(o.body, "C:")
  }

  /** `port_query_sent.get(port, False)`. */
  function Sent(sent: map<int, bool>, port: int): bool
  {
    port in sent && sent[port]
  }

  // ---------------------------------------------------------------- one connection

  /**
   * `handle_client` as a function of the poll state: the outcome for the
   * connection and the poll state after it. Any exception the handler catches
   * (a target `urlparse` rejects, an empty query list, the day before the first
   * representable date) closes the connection and changes nothing.
   */
  function Serve(st: PollState, req: Request, parseUrl: string -> Option<Target>): (r: (Outcome, PollState))
    requires Valid(req.today)
    ensures r.0.Replied? ==> r.0.header == Header(req.date, Utf8Length(r.0.body))
    ensures r.0.Replied? && r.0.packet.Some? ==> r.0.packet.value.attlog != [] && r.0.packet.value.sn != []
    ensures IsCommand(r.0) ==> !Sent(st.sent, req.port) && r.1 == PollState(st.counter + 1, st.sent[req.port := true])
    ensures !IsCommand(r.0) ==> r.1 == st
  {
    match RouteOfRequest(req.data, parseUrl)
    case None => (Closed, st)
    case Some(route) => Answer(st, req, route)
  }

  lemma ServeOfRoute(st: PollState, req: Request, parseUrl: string -> Option<Target>, route: Route)
    requires Valid(req.today) && RouteOfRequest(req.data, parseUrl) == Some(route)
    ensures Serve(st, req, parseUrl) == Answer(st, req, route)
  {
  }

  lemma AnswerKeepsState(st: PollState, req: Request, route: Route)
    requires Valid(req.today) && !route.Poll?
    ensures Answer(st, req, route).1 == st
  {
  }

  /** The route of a request whose line and target parse, `None` otherwise. */
  function RouteOfRequest(data: string, parseUrl: string -> Option<Target>): Option<Route>
  {
    match RequestLine(data)
    case None => None
    case Some((verb, url)) =>
      match parseUrl(url)
      case None => None
      case Some(t) => Some(RouteOf(verb, t))
  }

  /** The handler's answer once the route is known. */
  function Answer(st: PollState, req: Request, route: Route): (r: (Outcome, PollState))
    requires Valid(req.today)
    ensures r.0.Replied? ==> r.0.header == Header(req.date, Utf8Length(r.0.body))
    ensures r.0.Replied? && r.0.packet.Some? ==> r.0.packet.value.attlog != [] && r.0.packet.value.sn != []
    ensures IsCommand(r.0) ==> !Sent(st.sent, req.port) && r.1 == PollState(st.counter + 1, st.sent[req.port := true])
    ensures !IsCommand(r.0) ==> r.1 == st
  {
    match route
    case Raises => (Closed, st)
    case Poll(info) => PollAnswer(st, req, info)
    case Upload =>
      var attlog := ExtractAttlog(req.data);
      var sn := ExtractSn(req.data);
      var packet := if attlog.Some? && attlog.value != [] && sn.Some? then Some(Packet(attlog.value, sn.value)) else None;
      OthersAreNotCommands(req.date, "", packet);
      (Reply(req.date, "OK", packet), st)
    case Options(sn) =>
      OthersAreNotCommands(req.date, sn, None);
      (Reply(req.date, OptionsBody(sn), None), st)
    case Fallback =>
      OthersAreNotCommands(req.date, "", None);
      (Reply(req.date, "OK", None), st)
  }

  /**
   * The `/iclock/getrequest` answer: "OK" for INFO or a port already sent its
   * command, otherwise the next numbered command, which sets the port's flag.
   */
  function PollAnswer(st: PollState, req: Request, info: bool): (r: (Outcome, PollState))
    requires Valid(req.today)
    ensures r.0.Replied? ==> r.0.header == Header(req.date, Utf8Length(r.0.body)) && r.0.packet.None?
    ensures IsCommand(r.0) ==> !Sent(st.sent, req.port) && r.1 == PollState(st.counter + 1, st.sent[req.port := true])
    ensures !IsCommand(r.0) ==> r.1 == st
  {
    if IsFirstDay(req.today) then (Closed, st)
    else if info || Sent(st.sent, req.port) then
      OthersAreNotCommands(req.date, "", None);
      (Reply(req.date, "OK", None), st)
    else
      var dt2 := FormatDate(req.today);
      var dt1 := FormatDate(PreviousDay(req.today));
      CommandBodyPrefix(st.counter, dt1, dt2);
      (Reply(req.date, CommandBody(st.counter, dt1, dt2), None),
       PollState(st.counter + 1, st.sent[req.port := true]))
  }

  /**
   * A poll without INFO on a port whose flag is unset is answered with the
   * command numbered by the counter; the counter goes up by exactly one and the
   * port's flag is set. Nothing else changes.
   */
  lemma PollIssuesCommand(st: PollState, req: Request, parseUrl: string -> Option<Target>)
    requires Valid(req.today) && !IsFirstDay(req.today)
    requires RouteOfRequest(req.data, parseUrl) == Some(Poll(false))
    requires !Sent(st.sent, req.port)
    ensures var (o, st') := Serve(st, req, parseUrl);
      && o == Reply(req.date, CommandBody(st.counter, FormatDate(PreviousDay(req.today)), FormatDate(req.today)), None)
      && st'.counter == st.counter + 1
      && st'.sent == st.sent[req.port := true]
  {
  }

  /** A poll with INFO, or on a port that already had its command, gets "OK" and leaves the state alone. */
  lemma PollAnswersOk(st: PollState, req: Request, parseUrl: string -> Option<Target>, info: bool)
    requires Valid(req.today) && !IsFirstDay(req.today)
    requires RouteOfRequest(req.data, parseUrl) == Some(Poll(info))
    requires info || Sent(st.sent, req.port)
    ensures Serve(st, req, parseUrl) == (Reply(req.date, "OK", None), st)
  {
  }

  /**
   * An ATTLOG upload is answered "OK"; a packet is queued exactly when both the
   * payload and the serial were extracted and the payload is not blank.
   */
  lemma UploadQueuesPacket(st: PollState, req: Request, parseUrl: string -> Option<Target>)
    requires Valid(req.today)
    requires RouteOfRequest(req.data, parseUrl) == Some(Upload)
    ensures var (o, st') := Serve(st, req, parseUrl);
      && st' == st && o.Replied? && o.body == "OK"
      && (o.packet.Some? <==> ExtractAttlog(req.data).Some? && ExtractAttlog(req.data).value != [] && ExtractSn(req.data).Some?)
      && (o.packet.Some? ==> o.packet.value == Packet(ExtractAttlog(req.data).value, ExtractSn(req.data).value))
  {
  }

  /** Empty data, or a first line with fewer than two tokens, closes the connection without a reply. */
  lemma ShortRequestCloses(st: PollState, req: Request, parseUrl: string -> Option<Target>)
    requires Valid(req.today)
    requires req.data == [] || |Split(SplitLines(req.data)[0])| < 2
    ensures Serve(st, req, parseUrl) == (Closed, st)
  {
  }

  /** Unrecognised requests are answered "OK" with nothing queued and no state change. */
  lemma FallbackAnswersOk(st: PollState, req: Request, parseUrl: string -> Option<Target>)
    requires Valid(req.today)
    requires RouteOfRequest(req.data, parseUrl) == Some(Fallback)
    ensures Serve(st, req, parseUrl) == (Reply(req.date, "OK", None), st)
  {
  }

  /** The options request gets the options body for the query's serial and changes no state. */
  lemma OptionsAnswer(st: PollState, req: Request, parseUrl: string -> Option<Target>, sn: string)
    requires Valid(req.today)
    requires RouteOfRequest(req.data, parseUrl) == Some(Options(sn))
    ensures Serve(st, req, parseUrl) == (Reply(req.date, OptionsBody(sn), None), st)
  {
  }

  /** Every reply's header declares the byte length of the body it precedes. */
  lemma ContentLengthIsBodyLength(st: PollState, req: Request, parseUrl: string -> Option<Target>)
    requires Valid(req.today)
    ensures var o := Serve(st, req, parseUrl).0;
      o.Replied? ==> DeclaredLength(HeaderText(o.header)) == Some(Utf8Length(o.body))
  {
    var o := Serve(st, req, parseUrl).0;
    if o.Replied? {
      DeclaredLengthOfHeader(req.date, Utf8Length(o.body));
    }
  }

  // ---------------------------------------------------------------- a cycle of connections

  /** The connections of one cycle handled one after another. */
  function Run(st: PollState, reqs: seq<Request>, parseUrl: string -> Option<Target>): (r: (seq<Outcome>, PollState))
    requires forall i :: 0 <= i < |reqs| ==> Valid(reqs[i].today)
    ensures |r.0| == |reqs|
    decreases |reqs|
  {
    if reqs == [] then ([], st)
    else
      var (o, st1) := Serve(st, reqs[0], parseUrl);
      var (os, st2) := Run(st1, reqs[1..], parseUrl);
      ([o] + os, st2)
  }

  function CommandCount(os: seq<Outcome>): nat
  {
    if os == [] then 0 else (if IsCommand(os[0]) then 1 else 0) + CommandCount(os[1..])
  }

  lemma OthersAreNotCommands(date: string, sn: string, packet: Option<Packet>)
    ensures !IsCommand(Reply(date, "OK", packet))
    ensures !IsCommand(Reply(date, OptionsBody(sn), None))
  {
    assert OptionsBody(sn)[0] == 'G';
  }

  /** One connection moves the counter by one exactly when it is answered with a command. */
  lemma ServeCounter(st: PollState, req: Request, parseUrl: string -> Option<Target>)
    requires Valid(req.today)
    ensures var (o, st') := Serve(st, req, parseUrl);
      st'.counter == st.counter + (if IsCommand(o) then 1 else 0)
  {
  }

  /** The shared counter grows by exactly the number of commands issued. */
  lemma {:induction false} CounterCountsCommands(st: PollState, reqs: seq<Request>, parseUrl: string -> Option<Target>)
    requires forall i :: 0 <= i < |reqs| ==> Valid(reqs[i].today)
    ensures var (os, st') := Run(st, reqs, parseUrl);
      st'.counter == st.counter + CommandCount(os)
    decreases |reqs|
  {
    if reqs != [] {
      ServeCounter(st, reqs[0], parseUrl);
      var (o, st1) := Serve(st, reqs[0], parseUrl);
      CounterCountsCommands(st1, reqs[1..], parseUrl);
      var (os, st2) := Run(st1, reqs[1..], parseUrl);
      assert ([o] + os)[1..] == os;
    }
  }

  /** Flags are only ever set: a port that had its command keeps its flag. */
  lemma ServeKeepsFlags(st: PollState, req: Request, parseUrl: string -> Option<Target>, port: int)
    requires Valid(req.today)
    requires Sent(st.sent, port)
    ensures Sent(Serve(st, req, parseUrl).1.sent, port)
  {
  }

  /** A command answers a request on a port whose flag was unset, and sets it. */
  lemma ServeCommandPort(st: PollState, req: Request, parseUrl: string -> Option<Target>)
    requires Valid(req.today)
    ensures var (o, st') := Serve(st, req, parseUrl);
      IsCommand(o) ==> !Sent(st.sent, req.port) && Sent(st'.sent, req.port)
  {
  }

  /** No request to `port` is answered with a command. */
  predicate NoCommandTo(reqs: seq<Request>, os: seq<Outcome>, port: int)
    requires |reqs| == |os|
  {
    forall i :: 0 <= i < |reqs| && reqs[i].port == port ==> !IsCommand(os[i])
  }

  /** After a command to a port, no later request to the same port is answered with one. */
  predicate OncePerPort(reqs: seq<Request>, os: seq<Outcome>)
    requires |reqs| == |os|
  {
    forall i, j :: 0 <= i < j < |reqs| && reqs[i].port == reqs[j].port && IsCommand(os[i]) ==> !IsCommand(os[j])
  }

  lemma {:induction false} RunKeepsFlags(st: PollState, reqs: seq<Request>, parseUrl: string -> Option<Target>, port: int)
    requires forall i :: 0 <= i < |reqs| ==> Valid(reqs[i].today)
    requires Sent(st.sent, port)
    ensures Sent(Run(st, reqs, parseUrl).1.sent, port)
    ensures NoCommandTo(reqs, Run(st, reqs, parseUrl).0, port)
    decreases |reqs|
  {
    if reqs != [] {
      ServeKeepsFlags(st, reqs[0], parseUrl, port);
      ServeCommandPort(st, reqs[0], parseUrl);
      var (o, st1) := Serve(st, reqs[0], parseUrl);
      RunKeepsFlags(st1, reqs[1..], parseUrl, port);
      var (os, st2) := Run(st1, reqs[1..], parseUrl);
      assert Run(st, reqs, parseUrl).0 == [o] + os;
      NoCommandCons(reqs[0], reqs[1..], o, os, port);
      assert [reqs[0]] + reqs[1..] == reqs;
    }
  }

  lemma NoCommandCons(r: Request, reqs: seq<Request>, o: Outcome, os: seq<Outcome>, port: int)
    requires |reqs| == |os| && NoCommandTo(reqs, os, port)
    requires r.port == port ==> !IsCommand(o)
    ensures NoCommandTo([r] + reqs, [o] + os, port)
  {
    forall i | 0 <= i < |reqs| + 1 && ([r] + reqs)[i].port == port ensures !IsCommand(([o] + os)[i]) {
      if i > 0 {
        assert ([r] + reqs)[i] == reqs[i - 1];
        assert ([o] + os)[i] == os[i - 1];
      }
    }
  }

  lemma OncePerPortCons(r: Request, reqs: seq<Request>, o: Outcome, os: seq<Outcome>)
    requires |reqs| == |os| && OncePerPort(reqs, os)
    requires IsCommand(o) ==> NoCommandTo(reqs, os, r.port)
    ensures OncePerPort([r] + reqs, [o] + os)
  {
    var rs, xs := [r] + reqs, [o] + os;
    forall i, j | 0 <= i < j < |rs| && rs[i].port == rs[j].port && IsCommand(xs[i]) ensures !IsCommand(xs[j]) {
      assert rs[j] == reqs[j - 1] && xs[j] == os[j - 1];
      if i > 0 {
        assert rs[i] == reqs[i - 1] && xs[i] == os[i - 1];
      }
    }
  }

  /** Within a cycle each port is sent at most one command: a second command to the same port never follows a first. */
  lemma {:induction false} OneCommandPerPort(st: PollState, reqs: seq<Request>, parseUrl: string -> Option<Target>)
    requires forall i :: 0 <= i < |reqs| ==> Valid(reqs[i].today)
    ensures OncePerPort(reqs, Run(st, reqs, parseUrl).0)
    decreases |reqs|
  {
    if reqs != [] {
      var (o, st1) := Serve(st, reqs[0], parseUrl);
      ServeCommandPort(st, reqs[0], parseUrl);
      OneCommandPerPort(st1, reqs[1..], parseUrl);
      var (os, st2) := Run(st1, reqs[1..], parseUrl);
      assert Run(st, reqs, parseUrl).0 == [o] + os;
      if IsCommand(o) {
        RunKeepsFlags(st1, reqs[1..], parseUrl, reqs[0].port);
      }
      OncePerPortCons(reqs[0], reqs[1..], o, os);
      assert [reqs[0]] + reqs[1..] == reqs;
    }
  }

  // ---------------------------------------------------------------- the handler object

  /** The server's shared state: `global_counter` and `port_query_sent`. */
  class Gateway {
    var counter: int
    var sent: map<int, bool>

    /** The counter starts at 1000 and no port has been sent a command. */
    constructor()
      ensures counter == CounterStart && sent == map[]
    {
      counter := CounterStart;
      sent := map[];
    }

    function State(): PollState
      reads this
    {
      PollState(counter, sent)
    }

    /** `run_server` clears the flag of every configured port at the start of a cycle; the counter carries over. */
    method ResetCycle(ports: seq<int>)
      modifies this
      ensures counter == old(counter)
      ensures forall p :: p in ports ==> p in sent && !sent[p]
      ensures forall p :: p !in ports ==> (p in sent <==> p in old(sent)) && (p in sent ==> sent[p] == old(sent)[p])
    {
      var i := 0;
      while i < |ports|
        invariant 0 <= i <= |ports|
        invariant counter == old(counter)
        invariant forall p :: p in ports[..i] ==> p in sent && !sent[p]
        invariant forall p :: p !in ports[..i] ==> (p in sent <==> p in old(sent)) && (p in sent ==> sent[p] == old(sent)[p])
      {
        sent := sent[ports[i] := false];
        assert ports[..i + 1] == ports[..i] + [ports[i]];
        i := i + 1;
      }
      assert ports[..i] == ports;
    }

    /** `handle_client` for one connection, updating the counter and the flags as `Serve` says. */
    method HandleClient(req: Request, parseUrl: string -> Option<Target>) returns (o: Outcome)
      requires Valid(req.today)
      modifies this
      ensures (o, State()) == Serve(old(State()), req, parseUrl)
    {
      var route := RouteOfRequest(req.data, parseUrl);
      if route.None? {
        return Closed;
      }
      ServeOfRoute(State(), req, parseUrl, route.value);
      if !route.value.Poll? {
        // uploads, options and everything else leave the counter and the flags alone
        AnswerKeepsState(State(), req, route.value);
        o := Answer(State(), req, route.value).0;
        return;
      }
      o := AnswerPoll(req, route.value.info);
    }

    /** The `/iclock/getrequest` branch of `handle_client`. */
    method AnswerPoll(req: Request, info: bool) returns (o: Outcome)
      requires Valid(req.today)
      modifies this
      ensures (o, State()) == PollAnswer(old(State()), req, info)
    {
      if IsFirstDay(req.today) {
        return Closed;
      }
      var dt2 := FormatDate(req.today);
      var dt1 := FormatDate(PreviousDay(req.today));
      var body := "OK";
      if !info && !Sent(sent, req.port) {
        sent := sent[req.port := true];
        body := CommandBody(counter, dt1, dt2);
        counter := counter + 1;
      }
      o := Reply(req.date, body, None);
    }
  }
}
