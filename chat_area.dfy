/**
 * The chat area's composer and typing indicator: the text box's content, the `isTyping` flag,
 * and the calls it makes to send a message or a typing signal. The current room and the
 * current user are read from the surrounding state, so they are parameters here.
 */
module ChatArea {
  import opened Common
  import opened Entities
  import Seqs
  import ChatContext

  /** The characters `String.prototype.trim` strips: white space and line terminators. */
  predicate IsSpace(c: char) {
    var n := c as int;
    n == 0x9 || n == 0xA || n == 0xB || n == 0xC || n == 0xD || n == 0x20 || n == 0xA0
    || n == 0x1680 || (0x2000 <= n <= 0x200A) || n == 0x2028 || n == 0x2029 || n == 0x202F
    || n == 0x205F || n == 0x3000 || n == 0xFEFF
  }

  predicate AllSpace(s: string) {
    forall i | 0 <= i < |s| :: IsSpace(s[i])
  }

  /** How many white-space characters `s` begins with. */
  function Leading(s: string): (n: nat)
    ensures n <= |s| && AllSpace(s[..n])
    ensures n < |s| ==> !IsSpace(s[n])
  {
    if s != [] && IsSpace(s[0]) then
      var n := 1 + Leading(s[1..]);
      assert s[..n] == [s[0]] + s[1..][..n - 1];
      n
    else 0
  }

  /** How many white-space characters `s` ends with. */
  function Trailing(s: string): (n: nat)
    ensures n <= |s| && AllSpace(s[|s| - n..])
    ensures n < |s| ==> !IsSpace(s[|s| - n - 1])
  {
    if s != [] && IsSpace(s[|s| - 1]) then
      var n := 1 + Trailing(s[..|s| - 1]);
      assert s[|s| - n..] == s[..|s| - 1][|s| - n..] + [s[|s| - 1]];
      n
    else 0
  }

  /**
   * `s.trim()`: what lies between the leading and the trailing white space. It begins and ends
   * with a character that is not white space, and it is empty exactly for a blank `s`.
   */
  function Trim(s: string): (r: string)
    ensures r == [] <==> AllSpace(s)
    ensures r != [] ==> !IsSpace(r[0]) && !IsSpace(r[|r| - 1])
    ensures Leading(s) + |r| <= |s| && r == s[Leading(s)..Leading(s) + |r|]
    ensures AllSpace(s[..Leading(s)]) && AllSpace(s[Leading(s) + |r|..])
  {
    var i := Leading(s);
    if i == |s| then
      assert s[..i] == s;
      []
    else
      var j := |s| - Trailing(s);
      assert i < j;
      assert s[j..] == s[|s| - Trailing(s)..];
      assert !AllSpace(s) by {
        assert !IsSpace(s[i]);
      }
      s[i..j]
  }

  /** Trimming twice is trimming once. */
  lemma TrimIdempotent(s: string)
    ensures Trim(Trim(s)) == Trim(s)
  {
    var r := Trim(s);
    if r != [] {
      assert Leading(r) == 0 && Trailing(r) == 0;
      assert r[0..|r|] == r;
    }
  }

  /** The decimal numeral of `d < 10`. */
  function Digit(d: nat): (c: char)
    requires d < 10
    ensures '0' <= c <= '9' && c as int - '0' as int == d
  {
    ('0' as int + d) as char
  }

  /** `${n}` for a natural number: its decimal numeral, without leading zeros. */
  function DecimalString(n: nat): (r: string)
    ensures r != [] && (forall i | 0 <= i < |r| :: '0' <= r[i] <= '9')
    ensures |r| > 1 ==> r[0] != '0'
    decreases n
  {
    if n < 10 then [Digit(n)] else DecimalString(n / 10) + [Digit(n % 10)]
  }

  /** The number a string of decimal digits denotes. */
  function DecimalValue(s: string): nat
    requires forall i | 0 <= i < |s| :: '0' <= s[i] <= '9'
  {
    if s == [] then 0 else DecimalValue(s[..|s| - 1]) * 10 + (s[|s| - 1] as int - '0' as int)
  }

  /** The numeral reads back as the number. */
  lemma {:induction false} DecimalRoundTrip(n: nat)
    ensures DecimalValue(DecimalString(n)) == n
    decreases n
  {
    if n >= 10 {
      var r := DecimalString(n);
      assert r[..|r| - 1] == DecimalString(n / 10);
      DecimalRoundTrip(n / 10);
    }
  }

  const OneTyping := "Someone is typing..."
  const ManyTypingSuffix := " people are typing..."

  /**
   * `getCurrentTypingUsers`: nobody without a current room; otherwise the room's typing list
   * without the current user, in order.
   */
  function CurrentTypingUsers(typing: ChatContext.TypingByRoom, currentRoom: Option<RoomId>, currentUser: Option<UserId>): (r: seq<UserId>)
    ensures currentRoom.None? ==> r == []
    ensures currentRoom.Some? && currentUser.None? ==> r == Seqs.ListAt(typing, currentRoom.value)
    ensures currentRoom.Some? && currentUser.Some? ==>
      var list := Seqs.ListAt(typing, currentRoom.value);
      && currentUser.value !in r
      && (forall u | u != currentUser.value :: u in r <==> u in list)
      && multiset(r) == multiset(list)[currentUser.value := 0]
      && Seqs.IsSubsequence(r, list)
  {
    if currentRoom.None? then []
    else
      var roomTyping := Seqs.ListAt(typing, currentRoom.value);
      if currentUser.None? then roomTyping else Seqs.RemoveAll(roomTyping, currentUser.value)
  }

  /** The indicator's text: none for nobody, a fixed text for one, a count for more. */
  function TypingIndicator(userIds: seq<UserId>): (r: Option<string>)
    ensures r.None? <==> userIds == []
    ensures |userIds| == 1 ==> r == Some(OneTyping)
    ensures |userIds| >= 2 ==> r.Some? && |r.value| > |ManyTypingSuffix| && r.value[..|r.value| - |ManyTypingSuffix|] == DecimalString(|userIds|)
    ensures |userIds| >= 2 ==> r.Some? && |r.value| > |ManyTypingSuffix| && r.value[|r.value| - |ManyTypingSuffix|..] == ManyTypingSuffix
  {
    if |userIds| == 0 then None
    else if |userIds| == 1 then Some(OneTyping)
    else
      var text := DecimalString(|userIds|) + ManyTypingSuffix;
      assert text[..|text| - |ManyTypingSuffix|] == DecimalString(|userIds|);
      assert text[|text| - |ManyTypingSuffix|..] == ManyTypingSuffix;
      Some(text)
  }

  /** The count in the indicator reads back as the number of people typing. */
  lemma IndicatorCount(userIds: seq<UserId>)
    requires |userIds| >= 2
    ensures var text := TypingIndicator(userIds).value;
      DecimalValue(text[..|text| - |ManyTypingSuffix|]) == |userIds|
  {
    DecimalRoundTrip(|userIds|);
  }

  /** One call of `sendTyping` and one of `sendMessage`. */
  datatype TypingCall = TypingCall(roomId: RoomId, isTyping: bool)
  datatype SendCall = SendCall(content: string, roomId: RoomId)

  /** Typing signals alternate, starting with "typing". */
  predicate Alternating(calls: seq<TypingCall>) {
    forall i | 0 <= i < |calls| :: calls[i].isTyping == (i % 2 == 0)
  }

  class Composer {
    var messageInput: string
    var isTyping: bool
    var typingCalls: seq<TypingCall>
    var sendCalls: seq<SendCall>

    /** The flag is set exactly when the last signal sent was "typing". */
    predicate Valid()
      reads this
    {
      Alternating(typingCalls) && isTyping == (|typingCalls| % 2 == 1)
    }

    constructor ()
      ensures Valid()
      ensures messageInput == "" && !isTyping && typingCalls == [] && sendCalls == []
    {
      messageInput, isTyping, typingCalls, sendCalls := "", false, [], [];
    }

    /**
     * `handleTyping(value)`: the input takes the value; with a current room, a non-blank value
     * and the flag clear, the flag is set and "typing" is signalled.
     */
    method HandleTyping(value: string, currentRoom: Option<RoomId>)
      requires Valid()
      modifies this
      ensures Valid()
      ensures messageInput == value && sendCalls == old(sendCalls)
      ensures isTyping == (old(isTyping) || (currentRoom.Some? && Trim(value) != ""))
      ensures typingCalls == old(typingCalls) +
        if currentRoom.Some? && Trim(value) != "" && !old(isTyping) then [TypingCall(currentRoom.value, true)] else []
    {
      messageInput := value;
      if currentRoom.None? {
        return;
      }
      if Trim(value) != "" && !isTyping {
        isTyping := true;
        typingCalls := typingCalls + [TypingCall(currentRoom.value, true)];
      }
    }

    /** `handleStopTyping`: with the flag set and a current room, the flag clears and "stopped" is signalled. */
    method HandleStopTyping(currentRoom: Option<RoomId>)
      requires Valid()
      modifies this
      ensures Valid()
      ensures messageInput == old(messageInput) && sendCalls == old(sendCalls)
      ensures isTyping == (old(isTyping) && currentRoom.None?)
      ensures typingCalls == old(typingCalls) +
        if old(isTyping) && currentRoom.Some? then [TypingCall(currentRoom.value, false)] else []
    {
      if isTyping && currentRoom.Some? {
        isTyping := false;
        typingCalls := typingCalls + [TypingCall(currentRoom.value, false)];
      }
    }

    /**
     * `handleSendMessage`: a blank input or no current room does nothing. Otherwise the trimmed
     * input is sent to the current room, the input is cleared and typing stops.
     */
    method HandleSendMessage(currentRoom: Option<RoomId>)
      requires Valid()
      modifies this
      ensures Valid()
      ensures Trim(old(messageInput)) == "" || currentRoom.None? ==>
        && messageInput == old(messageInput) && isTyping == old(isTyping)
        && typingCalls == old(typingCalls) && sendCalls == old(sendCalls)
      ensures Trim(old(messageInput)) != "" && currentRoom.Some? ==>
        && sendCalls == old(sendCalls) + [SendCall(Trim(old(messageInput)), currentRoom.value)]
        && messageInput == "" && !isTyping
        && typingCalls == old(typingCalls) + if old(isTyping) then [TypingCall(currentRoom.value, false)] else []
    {
      if Trim(messageInput) == "" || currentRoom.None? {
        return;
      }
      sendCalls := sendCalls + [SendCall(Trim(messageInput), currentRoom.value)];
      messageInput := "";
      HandleStopTyping(currentRoom);
    }
  }
}
