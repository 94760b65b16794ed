/**
 * The keyword auto-reply of handlers/auto_reply.py: the message text is lowercased and the
 * reply table is scanned in its order; the first keyword found in the text gets its reply,
 * and the scan ends there.
 */
module AutoReply {
  import opened Wrappers
  import opened Text

  /** AUTO_REPLIES, keyword and reply, in the dict's insertion order. */
  const Replies: seq<(string, string)> := [
    ("hello", "Hi there! How can I assist you?"),
    ("pricing", "Our pricing details can be found on our website: example.com/pricing"),
    ("support", "You can contact support at support@example.com")
  ]

  /** The position of the first entry of `table` at or after `from` whose keyword occurs in
      `text`; None when there is none. */
  function FirstMatch(table: seq<(string, string)>, text: string, from: nat): (r: Option<nat>)
    requires from <= |table|
    ensures r.Some? ==> from <= r.value < |table| && Contains(text, table[r.value].0)
    ensures r.Some? ==> forall j :: from <= j < r.value ==> !Contains(text, table[j].0)
    ensures r.None? ==> forall j :: from <= j < |table| ==> !Contains(text, table[j].0)
    decreases |table| - from
  {
    if from == |table| then None
    else if Contains(text, table[from].0) then Some(from)
    else FirstMatch(table, text, from + 1)
  }

  /** The replies `auto_reply` sends for a message text: the reply of the first keyword that
      is a substring of the lowercased text, or none. */
  function RepliesFor(text: string): seq<string> {
    match FirstMatch(Replies, Lower(text), 0)
    case Some(i) => [Replies[i].1]
    case None => []
  }

  /** `auto_reply`: the loop over the table with its early return. */
  method AutoReply(text: string) returns (replies: seq<string>)
    ensures replies == RepliesFor(text)
    ensures |replies| <= 1
  {
    var lowered := Lower(text);
    replies := [];
    var i := 0;
    while i < |Replies|
      invariant 0 <= i <= |Replies|
      invariant replies == []
      invariant FirstMatch(Replies, lowered, 0) == FirstMatch(Replies, lowered, i)
    {
      var (keyword, reply) := Replies[i];
      if Contains(lowered, keyword) {
        replies := replies + [reply];
        return;
      }
      i := i + 1;
    }
  }

  /** A reply is sent exactly when some keyword occurs in the lowercased text, and it is the
      reply of the earliest such keyword in the order hello, pricing, support. */
  lemma ReplyIsFirstKeyword(text: string)
    ensures |RepliesFor(text)| <= 1
    ensures RepliesFor(text) == [] <==> forall j :: 0 <= j < |Replies| ==> !Contains(Lower(text), Replies[j].0)
    ensures forall i :: 0 <= i < |Replies| && Contains(Lower(text), Replies[i].0)
              && (forall j :: 0 <= j < i ==> !Contains(Lower(text), Replies[j].0))
              ==> RepliesFor(text) == [Replies[i].1]
  {
    var r := FirstMatch(Replies, Lower(text), 0);
    if r.Some? {
      forall i | 0 <= i < |Replies| && Contains(Lower(text), Replies[i].0)
                 && (forall j :: 0 <= j < i ==> !Contains(Lower(text), Replies[j].0))
        ensures RepliesFor(text) == [Replies[i].1]
      {
        assert !(i < r.value);
        assert !(r.value < i);
      }
    }
  }

  /** Matching ignores ASCII case: two texts that lowercase alike get the same replies. */
  lemma SameLowercaseSameReplies(t: string, u: string)
    requires Lower(t) == Lower(u)
    ensures RepliesFor(t) == RepliesFor(u)
  {
  }

  /** Lowercasing a text first changes nothing about its replies. */
  lemma LowercasedTextSameReplies(t: string)
    ensures RepliesFor(Lower(t)) == RepliesFor(t)
  {
    LowerIdempotent(t);
    SameLowercaseSameReplies(Lower(t), t);
  }

  /** Matching ignores ASCII case: "HELLO there" is answered like "hello there". */
  lemma MatchingIgnoresCase()
    ensures RepliesFor("HELLO there") == ["Hi there! How can I assist you?"]
  {
    assert Lower("HELLO there") == "hello there";
    assert StartsWith("hello there", "hello");
  }

  /** A text with both "support" and "pricing" (and no "hello") gets only the pricing reply,
      wherever the two stand in the text: table order decides, not position. */
  lemma TableOrderWins(t: string)
    requires Contains(Lower(t), "support") && Contains(Lower(t), "pricing")
    requires !Contains(Lower(t), "hello")
    ensures RepliesFor(t) == [Replies[1].1]
  {
    ReplyIsFirstKeyword(t);
    assert Replies[0].0 == "hello" && Replies[1].0 == "pricing";
  }
}
