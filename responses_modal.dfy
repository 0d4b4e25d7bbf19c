/** The responses modal: `fetchAndShowResponses` opens it and classifies the
    reply; `renderResponses` fills its body with one card per response. */
module ResponsesModal {
  import opened Wrappers
  import opened Strings
  import opened Records
  import opened Http
  import opened HtmlEscape

  /** What the modal body shows. A card's text is escaped; its voice URL and
      timestamp are carried as received. */
  datatype ModalItem =
    | Loading
    | Notice(text: string)
    | LoadError(message: string)
    | Card(weekNumber: int, createdAt: string, textSection: Option<string>, voiceLink: Option<string>)

  /** Shown for a 404. The server sends a 404 only when no mentee has the
      Discord id; a mentee without responses gets an empty list. */
  const NotYetMessage := "Mentee found, but no responses recorded yet."

  /** Shown for an empty list of responses. */
  const EmptyMessage := "No responses recorded for this mentee yet."

  /** The card for one response: a text section exactly when the text is
      truthy, a voice link exactly when the URL is truthy. */
  function CardFor(r: ResponseRecord): ModalItem
  {
    Card(r.weekNumber, r.createdAt,
         if Truthy(r.textResponse) then Some(Escape(r.textResponse.value)) else None,
         if Truthy(r.voiceResponseUrl) then Some(r.voiceResponseUrl.value) else None)
  }

  /** One card per response, in order. */
  function Cards(rs: seq<ResponseRecord>): seq<ModalItem>
  {
    if rs == [] then [] else Cards(rs[..|rs| - 1]) + [CardFor(rs[|rs| - 1])]
  }

  /** The body `renderResponses` leaves: the empty message, or the cards. */
  function ResponsesListing(rs: seq<ResponseRecord>): seq<ModalItem>
  {
    if rs == [] then [Notice(EmptyMessage)] else Cards(rs)
  }

  /** How `fetchAndShowResponses` classifies a reply. */
  datatype Outcome = Loaded(responses: seq<ResponseRecord>) | NoneYet | Failed(message: string)

  /** A 404 means "no responses yet", any other status outside 2xx is an error
      naming the status, a rejected request is an error with its message. */
  function Classify(reply: Reply<seq<ResponseRecord>>): (o: Outcome)
    ensures reply.Reply? && reply.status == 404 <==> o.NoneYet?
    ensures o.Loaded? <==> reply.Reply? && Ok(reply.status)
    ensures o.Loaded? ==> o.responses == reply.body
    ensures reply.Reply? && !Ok(reply.status) && reply.status != 404 ==> o == Failed(StatusError(reply.status))
    ensures reply.Rejected? ==> o == Failed(reply.message)
  {
    match reply
    case Rejected(message) => Failed(message)
    case Reply(status, body) =>
      if Ok(status) then Loaded(body)
      else if status == 404 then NoneYet
      else Failed(StatusError(status))
  }

  /** The body the modal ends with for an outcome. */
  function OutcomeView(o: Outcome): seq<ModalItem>
  {
    match o
    case Loaded(rs) => ResponsesListing(rs)
    case NoneYet => [Notice(NotYetMessage)]
    case Failed(message) => [LoadError("Error loading responses: " + message)]
  }

  /** `Cards` gives exactly one card per response, the i-th for the i-th. */
  lemma {:induction false} CardsAt(rs: seq<ResponseRecord>)
    ensures |Cards(rs)| == |rs|
    ensures forall i :: 0 <= i < |rs| ==> Cards(rs)[i] == CardFor(rs[i])
  {
    if rs != [] {
      CardsAt(rs[..|rs| - 1]);
    }
  }

  /** For a non-empty reply the body is one card per response, in order; each
      card has a text section iff the text is truthy, and a voice link iff the
      URL is truthy. An empty reply shows the empty message and no card. */
  lemma CardsFollowResponses(rs: seq<ResponseRecord>)
    ensures rs == [] ==> ResponsesListing(rs) == [Notice(EmptyMessage)]
    ensures rs != [] ==> |ResponsesListing(rs)| == |rs| && forall i :: 0 <= i < |rs| ==>
      var card := ResponsesListing(rs)[i];
      && card.Card?
      && card.weekNumber == rs[i].weekNumber
      && (card.textSection.Some? <==> Truthy(rs[i].textResponse))
      && (card.voiceLink.Some? <==> Truthy(rs[i].voiceResponseUrl))
      && (card.textSection.Some? ==> card.textSection.value == Escape(rs[i].textResponse.value))
  {
    CardsAt(rs);
  }

  /** A 404 shows the "no responses yet" notice and no error. */
  lemma NotFoundIsNoError(body: seq<ResponseRecord>)
    ensures OutcomeView(Classify(Reply(404, body))) == [Notice(NotYetMessage)]
    ensures NotYetMessage != EmptyMessage
  {
    assert NotYetMessage[0] != EmptyMessage[0];
  }

  /** Any other status outside 2xx shows a single error, and the status can
      be read back from the end of its message. */
  lemma OtherFailureNamesStatus(status: nat, body: seq<ResponseRecord>)
    requires !Ok(status) && status != 404
    ensures var v := OutcomeView(Classify(Reply(status, body)));
      && |v| == 1 && v[0].LoadError?
      && v[0].message == "Error loading responses: " + StatusError(status)
      && |v[0].message| > 45
      && (forall i :: 45 <= i < |v[0].message| ==> IsDigit(v[0].message[i]))
      && ParseDecimal(v[0].message[45..]) == status
  {
    var m := "Error loading responses: " + StatusError(status);
    StatusErrorNamesStatus(status);
    assert m[45..] == StatusError(status)[20..];
  }

  /** The modal of the page: its title, its body and whether it is shown. */
  class ResponsesDialog {
    var title: string
    var body: seq<ModalItem>
    var shown: bool

    constructor ()
      ensures title == "" && body == [] && !shown
    {
      title, body, shown := "", [], false;
    }

    /** The synchronous part of `fetchAndShowResponses`: the modal is shown at
        once with the mentee's name as title and a loading placeholder, before
        any reply; the result is the path of the request it then issues. */
    method Open(discordId: string, menteeName: string) returns (path: string)
      modifies this
      ensures title == "Responses by " + menteeName && body == [Loading] && shown
      ensures path == "/api/mentees/" + discordId + "/responses"
    {
      title := "Responses by " + menteeName;
      body := [Loading];
      shown := true;
      path := "/api/mentees/" + discordId + "/responses";
    }

    /** The rest of `fetchAndShowResponses`, once the reply is in. */
    method ShowReply(reply: Reply<seq<ResponseRecord>>)
      modifies this`body
      ensures body == OutcomeView(Classify(reply))
    {
      match reply
      case Rejected(message) =>
        body := [LoadError("Error loading responses: " + message)];
      case Reply(status, responses) =>
        if !Ok(status) {
          if status == 404 {
            body := [Notice(NotYetMessage)];
            return;
          }
          body := [LoadError("Error loading responses: " + StatusError(status))];
        } else {
          RenderResponses(responses);
        }
    }

    /** `renderResponses`: clears the body, then appends one card per response. */
    method RenderResponses(rs: seq<ResponseRecord>)
      modifies this`body
      ensures body == ResponsesListing(rs)
    {
      body := [];
      if |rs| == 0 {
        body := [Notice(EmptyMessage)];
        return;
      }
      for i := 0 to |rs|
        invariant body == Cards(rs[..i])
      {
        assert rs[..i + 1][..i] == rs[..i];
        body := body + [CardFor(rs[i])];
      }
      assert rs[..|rs|] == rs;
    }
  }
}
