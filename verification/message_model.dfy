/** The `Message` model: mass assignment through the fillable list, the
    boolean casts, and the two per-message helpers. */
module MessageModel {
  import opened Domain

  /** Every attribute a caller may hand to `Message::create`; `None` means
      the key was left out. */
  datatype NewMessage = NewMessage(
    id: MessageId,
    itemId: ItemId,
    sender: UserId,
    receiver: UserId,
    body: string,
    imagePath: Option<string>,
    isRead: Option<bool>,
    isEdited: Option<bool>,
    editedAt: Option<Time>,
    createdAt: Time)

  /** Attributes outside the fillable list (`image_path`, `edited_at`) are
      dropped; `is_read` and `is_edited` fall back to the column default. */
  function Create(a: NewMessage): (m: Message)
    ensures m.id == a.id && m.itemId == a.itemId && m.createdAt == a.createdAt
    ensures m.sender == a.sender && m.receiver == a.receiver && m.body == a.body
    ensures m.imagePath == None && m.editedAt == None
    ensures m.isRead <==> a.isRead == Some(true)
    ensures m.isEdited <==> a.isEdited == Some(true)
  {
    Message(a.id, a.itemId, a.sender, a.receiver, a.body, None,
            a.isRead == Some(true), a.isEdited == Some(true), None, a.createdAt)
  }

  /** `Message::create` with `image_path` on the fillable list, as the
      migration adding the column and the chat page showing it intend. */
  function CreateKeepingImage(a: NewMessage): (m: Message)
    ensures m.imagePath == a.imagePath
    ensures m.(imagePath := None) == Create(a)
  {
    Create(a).(imagePath := a.imagePath)
  }

  predicate IsUnread(m: Message) {
    !m.isRead
  }

  /** Sets `is_read`; nothing else about the message changes. */
  function MarkAsRead(m: Message): (r: Message)
    ensures !IsUnread(r)
    ensures r.(isRead := m.isRead) == m
  {
    m.(isRead := true)
  }

  /** Marking twice is marking once. */
  lemma MarkAsReadIdempotent(m: Message)
    ensures MarkAsRead(MarkAsRead(m)) == MarkAsRead(m)
    ensures MarkAsRead(m) == m <==> !IsUnread(m)
  {
  }
}
