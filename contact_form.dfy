/** The contact-message history (contact_form/script.js): every submission is
    appended to an ordered list of messages, a delete button filters its id
    out, the list is mirrored in the store under `contact_messages_v1`, and the
    page shows it newest first. */
module ContactForm {
  import opened Sequences
  import opened Text
  import opened Storage

  const MessagesKey := "contact_messages_v1"

  /** One submitted message; `id` and `sent` come from the clock and the
      random source when it is built. */
  datatype Message = Message(id: string, name: string, email: string, message: string, sent: string)

  /** The list after deleting `id`: exactly the messages whose id differs, in
      their original order, each as often as before. */
  function RemoveMessage(messages: seq<Message>, id: string): (r: seq<Message>)
    ensures IsSubsequence(r, messages)
    ensures forall m :: m in r <==> m in messages && m.id != id
    ensures forall m :: multiset(r)[m] == if m.id != id then multiset(messages)[m] else 0
  {
    var keep := (m: Message) => m.id != id;
    FilterCounts(keep, messages);
    Filter(keep, messages)
  }

  /** Deleting the id of the message just appended restores the list, as long
      as no earlier message carried that id. */
  lemma RemoveAppended(messages: seq<Message>, m: Message)
    requires forall k :: 0 <= k < |messages| ==> messages[k].id != m.id
    ensures RemoveMessage(messages + [m], m.id) == messages
  {
    var keep := (x: Message) => x.id != m.id;
    FilterAppend(keep, messages, m);
    FilterKeepsAll(keep, messages);
  }

  /** What the message area holds after `renderMessages`. */
  datatype MessagesView = Placeholder | Cards(cards: seq<Message>)

  /** `renderMessages`: the "No messages yet" placeholder exactly when the list
      is empty, otherwise one card per message, newest first. */
  function View(messages: seq<Message>): (v: MessagesView)
    ensures v == Placeholder <==> messages == []
    ensures v.Cards? ==> |v.cards| == |messages|
    ensures v.Cards? ==> forall k :: 0 <= k < |messages| ==> v.cards[k] == messages[|messages| - 1 - k]
  {
    if messages == [] then Placeholder else Cards(Reversed(messages))
  }

  /** What the count element shows: whatever the page started with, or the
      number written by the last render of a non-empty list. */
  datatype CountText = Initial | Showing(n: nat)

  /** The status line under the form. */
  datatype Notice = Blank | SentNotice | NotPersistedNotice

  /** The page state: the in-memory list, which is authoritative, and what is
      on screen. */
  class MessageBoard {
    var messages: seq<Message>
    var view: MessagesView
    var count: CountText
    var notice: Notice
    const store: Store<Message>

    /** The message area shows the current list; the count matches it
        whenever the list is non-empty. */
    ghost predicate Rendered()
      reads this
    {
      view == View(messages) && (messages != [] ==> count == Showing(|messages|))
    }

    /** Page start: load the list and render it once. */
    constructor (store: Store<Message>)
      ensures this.store == store
      ensures messages == store.Load(MessagesKey)
      ensures Rendered() && notice == Blank
      ensures messages == [] ==> count == Initial
    {
      this.store := store;
      messages := store.Load(MessagesKey);
      notice := Blank;
      count := Initial;
      new;
      RenderMessages();
    }

    /** `renderMessages`. An empty list puts up the placeholder and returns
        before the count is written, so the count keeps its old text. */
    method RenderMessages()
      modifies this`view, this`count
      ensures Rendered()
      ensures count == if messages == [] then old(count) else Showing(|messages|)
    {
      if messages == [] {
        view := Placeholder;
        return;
      }
      count := Showing(|messages|);
      view := Cards(Reversed(messages));
    }

    /** The submit handler, up to `renderMessages`: the three raw field values
        are trimmed but not checked, the message is appended, the list saved,
        the outcome reported, the list rendered. A failed save does not undo
        the append. */
    method Submit(id: string, name: string, email: string, message: string, sent: string) returns (saved: bool)
      modifies this, store
      ensures Rendered()
      ensures messages == old(messages) + [Message(id, Trim(name), Trim(email), Trim(message), sent)]
      ensures saved ==> store.entries == old(store.entries)[MessagesKey := Records(messages)]
      ensures !saved ==> store.entries == old(store.entries)
      ensures notice == if saved then SentNotice else NotPersistedNotice
    {
      var msg := Message(id, Trim(name), Trim(email), Trim(message), sent);
      messages := messages + [msg];
      saved := store.Save(MessagesKey, messages);
      if !saved {
        notice := NotPersistedNotice;
      } else {
        notice := SentNotice;
      }
      RenderMessages();
    }

    /** The delete-button handler for the button's `data-id`: an empty id does
        nothing; otherwise every message with that id is dropped, the list
        saved, a warning raised if the save failed, and the list rendered.
        A failed save does not undo the removal. */
    method Delete(id: string) returns (warned: bool)
      modifies this, store
      ensures notice == old(notice)
      ensures id == [] ==> messages == old(messages) && view == old(view) && count == old(count)
      ensures id == [] ==> store.entries == old(store.entries) && !warned
      ensures id != [] ==> messages == RemoveMessage(old(messages), id) && Rendered()
      ensures id != [] ==> count == if messages == [] then old(count) else Showing(|messages|)
      ensures id != [] && !warned ==> store.entries == old(store.entries)[MessagesKey := Records(messages)]
      ensures warned ==> store.entries == old(store.entries)
    {
      if id == [] {
        return false;
      }
      messages := RemoveMessage(messages, id);
      var ok := store.Save(MessagesKey, messages);
      warned := !ok;
      RenderMessages();
    }
  }
}
