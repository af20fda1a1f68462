/**
 * The chat stores (src/lib/stores/chat.ts): the unread-message counter and
 * the admin's chat inbox, with the four functions that update them.
 */
module ChatStore {
  /** One conversation in the inbox, as the chat API returns it. */
  datatype ChatInboxItem = ChatInboxItem(
    chatId: string,
    reservationId: string,
    customerName: string,
    lastMessage: string,
    lastSentAt: string,
    unreadCount: int)

  /** `n => n + 1`. */
  function Incremented(n: int): (r: int)
    ensures r > n && r - 1 == n
  {
    n + 1
  }

  /** `n => Math.max(0, n - 1)`: one less, but never below zero. */
  function Decremented(n: int): (r: int)
    ensures r >= 0 && r >= n - 1
    ensures r == 0 || r == n - 1
  {
    if n - 1 > 0 then n - 1 else 0
  }

  /** A decrement undoes an increment of a count that is not negative. */
  lemma DecrementUndoesIncrement(n: int)
    requires n >= 0
    ensures Decremented(Incremented(n)) == n
  {
  }

  /** A decrement from zero leaves zero, and from a positive count takes one off. */
  lemma DecrementCases(n: int)
    requires n >= 0
    ensures n == 0 ==> Decremented(n) == 0
    ensures n > 0 ==> Decremented(n) == n - 1
  {
  }

  /** `k` decrements in a row. */
  function DecrementedTimes(n: int, k: nat): int {
    if k == 0 then n else Decremented(DecrementedTimes(n, k - 1))
  }

  /** Any run of decrements from a non-negative count stops at zero: `k` of them leave max(0, n - k). */
  lemma {:induction false} RepeatedDecrement(n: int, k: nat)
    requires n >= 0
    ensures DecrementedTimes(n, k) == if n >= k then n - k else 0
  {
    if k > 0 {
      RepeatedDecrement(n, k - 1);
    }
  }

  class ChatStore {
    /** `unreadChatCount`. */
    var unreadChatCount: int
    /** `chatInbox`. */
    var chatInbox: seq<ChatInboxItem>

    /** The count starts at 0 and the inbox empty. */
    constructor()
      ensures unreadChatCount == 0 && chatInbox == []
    {
      unreadChatCount := 0;
      chatInbox := [];
    }

    /** `updateUnreadCount`: the count becomes exactly `count`. */
    method UpdateUnreadCount(count: int)
      modifies this
      ensures unreadChatCount == count && chatInbox == old(chatInbox)
    {
      unreadChatCount := count;
    }

    /** `updateChatInbox`: the inbox becomes exactly `inbox`. */
    method UpdateChatInbox(inbox: seq<ChatInboxItem>)
      modifies this
      ensures chatInbox == inbox && unreadChatCount == old(unreadChatCount)
    {
      chatInbox := inbox;
    }

    /** `incrementUnreadCount`: one more unread message; the inbox is untouched. */
    method IncrementUnreadCount()
      modifies this
      ensures unreadChatCount == Incremented(old(unreadChatCount)) && chatInbox == old(chatInbox)
      ensures old(unreadChatCount) >= 0 ==> unreadChatCount > 0
    {
      unreadChatCount := Incremented(unreadChatCount);
    }

    /** `decrementUnreadCount`: one fewer unread message, never below zero; the inbox is untouched. */
    method DecrementUnreadCount()
      modifies this
      ensures unreadChatCount == Decremented(old(unreadChatCount)) && chatInbox == old(chatInbox)
      ensures unreadChatCount >= 0
    {
      unreadChatCount := Decremented(unreadChatCount);
    }
  }
}
