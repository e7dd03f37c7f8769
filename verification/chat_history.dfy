/** `ChatHistoryModel` (src/model/ChatHistoryModel.h and .cpp): the messages
    of the open conversation, which the controller either replaces wholesale
    or extends by one. */
module ChatHistory {
  import opened Wrappers
  import opened ItemModel

  /** `struct ChatMessage`. */
  datatype ChatMessage = ChatMessage(sender: string, content: string, timestamp: string, isOwn: bool)

  /** The roles `data` answers, numbered from `Qt::UserRole + 1`. */
  const SenderRole: int := UserRole + 1
  const ContentRole: int := UserRole + 2
  const TimestampRole: int := UserRole + 3
  const IsOwnRole: int := UserRole + 4

  class ChatHistoryModel {
    /** `m_messages`. */
    var messages: seq<ChatMessage>

    /** `ChatHistoryModel(parent)`: no messages. */
    constructor()
      ensures messages == []
    {
      messages := [];
    }

    /** `resetHistory(messages)`: the list becomes exactly the given one. */
    method ResetHistory(ms: seq<ChatMessage>)
      modifies this
      ensures messages == ms
    {
      messages := ms;
    }

    /** `appendMessage(message)`: one more row, at the end; the earlier
        rows are untouched. */
    method AppendMessage(m: ChatMessage)
      modifies this
      ensures messages == old(messages) + [m]
      ensures |messages| == |old(messages)| + 1 && messages[|messages| - 1] == m
      ensures messages[..|old(messages)|] == old(messages)
    {
      messages := messages + [m];
    }

    /** `rowCount(parent)`: the size under the root, 0 under a valid parent. */
    function RowCount(parentValid: bool): (n: int)
      reads this
      ensures parentValid ==> n == 0
      ensures !parentValid ==> n == |messages|
    {
      if parentValid then 0 else |messages|
    }

    /** `data(index, role)`; `row` is `None` for an invalid index, and a
        valid index always points into the list (`QVector::at`). */
    function Data(row: Option<nat>, role: int): (v: Variant)
      reads this
      requires row.Some? ==> row.value < |messages|
      ensures row.None? ==> v == Invalid
      ensures !(SenderRole <= role <= IsOwnRole) ==> v == Invalid
      ensures row.Some? && role == SenderRole ==> v == VStr(messages[row.value].sender)
      ensures row.Some? && role == ContentRole ==> v == VStr(messages[row.value].content)
      ensures row.Some? && role == TimestampRole ==> v == VStr(messages[row.value].timestamp)
      ensures row.Some? && role == IsOwnRole ==> v == VBool(messages[row.value].isOwn)
    {
      match row
      case None => Invalid
      case Some(r) =>
        var m := messages[r];
        if role == SenderRole then VStr(m.sender)
        else if role == ContentRole then VStr(m.content)
        else if role == TimestampRole then VStr(m.timestamp)
        else if role == IsOwnRole then VBool(m.isOwn)
        else Invalid
    }
  }
}
