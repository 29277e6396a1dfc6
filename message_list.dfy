/** The rules by which the message list groups a room's messages under avatars. */
module MessageList {
  import opened Entities

  /** Messages from one sender more than this far apart (ms) start a new group. */
  const AvatarGap := 300000

  /**
   * `shouldShowAvatar`: the first message shows its sender's avatar; a later one does when its
   * sender differs from the previous message's or it comes more than five minutes after it.
   */
  function ShouldShowAvatar(messages: seq<Message>, index: nat): (r: bool)
    requires index < |messages|
    ensures index == 0 ==> r
    ensures index > 0 && messages[index - 1].senderId != messages[index].senderId ==> r
    ensures index > 0 && messages[index - 1].senderId == messages[index].senderId ==>
      (r <==> messages[index].createdAt > messages[index - 1].createdAt + AvatarGap)
  {
    if index == 0 then true
    else
      var prev := messages[index - 1];
      prev.senderId != messages[index].senderId || messages[index].createdAt - prev.createdAt > AvatarGap
  }

  /** `isOwn`: a message is the viewer's own exactly when the viewer sent it. */
  function IsOwn(message: Message, currentUserId: string): (r: bool)
    ensures r <==> message.senderId == currentUserId
  {
    message.senderId == currentUserId
  }

  /** An avatar is drawn beside a message that shows one and is not the viewer's own. */
  function AvatarDrawn(messages: seq<Message>, index: nat, currentUserId: string): (r: bool)
    requires index < |messages|
    ensures r ==> !IsOwn(messages[index], currentUserId)
    ensures !IsOwn(messages[index], currentUserId) ==> (r <==> ShouldShowAvatar(messages, index))
  {
    ShouldShowAvatar(messages, index) && !IsOwn(messages[index], currentUserId)
  }

  /** `messages[lo..hi]` come from one sender, each at most five minutes after the one before. */
  predicate CloseRun(messages: seq<Message>, lo: nat, hi: nat)
    requires lo <= hi <= |messages|
  {
    forall k | lo < k < hi ::
      messages[k].senderId == messages[k - 1].senderId
      && messages[k].createdAt - messages[k - 1].createdAt <= AvatarGap
  }

  /**
   * In a run of messages from one sender, each at most five minutes after the one before, only
   * the first can show an avatar, and it does when the run opens the list or follows another
   * sender.
   */
  lemma OnlyRunHeadShowsAvatar(messages: seq<Message>, lo: nat, hi: nat)
    requires lo < hi <= |messages| && CloseRun(messages, lo, hi)
    requires lo == 0 || messages[lo - 1].senderId != messages[lo].senderId
    ensures forall k | lo <= k < hi :: ShouldShowAvatar(messages, k) <==> k == lo
  {
  }

  /** Prepending older history never hides an avatar beyond the boundary it creates. */
  lemma HistoryKeepsLaterAvatars(older: seq<Message>, newer: seq<Message>, k: nat)
    requires 0 < k < |newer|
    ensures ShouldShowAvatar(older + newer, |older| + k) == ShouldShowAvatar(newer, k)
  {
    assert (older + newer)[|older| + k] == newer[k];
    assert (older + newer)[|older| + k - 1] == newer[k - 1];
  }
}
