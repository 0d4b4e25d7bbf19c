/** The house drop-down that `populateHouseFilter` fills once at start-up. */
module HouseFilter {
  import opened Http

  /** The drop-down of the page: its option values, in order. */
  class HouseSelect {
    var options: seq<string>

    /** The drop-down as the page declares it, with its default option(s). */
    constructor (defaults: seq<string>)
      ensures options == defaults
    {
      options := defaults;
    }

    /** `populateHouseFilter`: on an OK reply one option per house is appended,
        in the server's order; on any failure the drop-down is left as it is. */
    method Populate(reply: Reply<seq<string>>)
      modifies this
      ensures reply.Reply? && Ok(reply.status) ==> options == old(options) + reply.body
      ensures !(reply.Reply? && Ok(reply.status)) ==> options == old(options)
    {
      if reply.Reply? && Ok(reply.status) {
        var houses := reply.body;
        for i := 0 to |houses|
          invariant options == old(options) + houses[..i]
        {
          assert houses[..i + 1] == houses[..i] + [houses[i]];
          options := options + [houses[i]];
        }
        assert houses[..|houses|] == houses;
      }
    }
  }
}
