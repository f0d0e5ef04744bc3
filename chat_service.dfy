/** ChatService: one chat room per customer, the messages posted in it, and
    the room's count of messages from the customer that no administrator has
    read yet. */
module ChatService {
  import opened Wrappers
  import opened Store
  import opened UserEntity

  datatype RoomStatus = Active | Closed

  datatype ChatRoom = ChatRoom(userId: nat, userName: Option<string>, status: RoomStatus,
                               createdAt: Option<Instant>, lastMessageAt: Option<Instant>, unreadCount: nat)

  /** USER or ADMIN; the column is nullable, so a message may carry neither. */
  datatype SenderType = UserSender | AdminSender

  datatype ChatMessage = ChatMessage(chatRoomId: nat, senderId: nat, senderName: string,
                                     senderType: Option<SenderType>, text: Option<string>,
                                     timestamp: Option<Instant>, isRead: bool)

  datatype ChatError = ChatRoomNotFound   // "Chat room not found"

  /** A new room as the insert hook leaves it: ACTIVE, nothing unread, both
      timestamps set to the moment of creation. */
  function NewRoom(userId: nat, userName: Option<string>, now: Instant): (room: ChatRoom)
    ensures room.userId == userId && room.userName == userName
    ensures room.status == Active && room.unreadCount == 0
  {
    ChatRoom(userId, userName, Active, Some(now), Some(now), 0)
  }

  /** `findByUserId` succeeds. */
  predicate HasRoom(rooms: map<nat, ChatRoom>, userId: nat) {
    exists id :: id in rooms && rooms[id].userId == userId
  }

  /** The room's user id is a unique column. */
  ghost predicate OneRoomPerUser(rooms: map<nat, ChatRoom>) {
    forall a, b :: a in rooms && b in rooms && rooms[a].userId == rooms[b].userId ==> a == b
  }

  /** getOrCreateChatRoom: the user's room when there is one, otherwise a
      new one. The user keeps exactly one room, so calling it again creates
      nothing. */
  method GetOrCreateChatRoom(rooms: Table<ChatRoom>, userId: nat, userName: Option<string>, now: Instant)
    returns (id: nat)
    requires rooms.Valid() && OneRoomPerUser(rooms.rows)
    modifies rooms
    ensures rooms.Valid() && OneRoomPerUser(rooms.rows)
    ensures id in rooms.rows && rooms.rows[id].userId == userId
    ensures HasRoom(old(rooms.rows), userId) ==> rooms.rows == old(rooms.rows) && rooms.nextId == old(rooms.nextId)
    ensures !HasRoom(old(rooms.rows), userId) ==>
      id == old(rooms.nextId) && rooms.rows == old(rooms.rows)[id := NewRoom(userId, userName, now)]
  {
    if HasRoom(rooms.rows, userId) {
      id :| id in rooms.rows && rooms.rows[id].userId == userId;
      return;
    }
    id := rooms.Insert(NewRoom(userId, userName, now));
  }

  /** The room after a message: the last-message time moves on, and only a
      message from the customer adds one to the unread count. */
  function AfterMessage(room: ChatRoom, sender: Option<SenderType>, now: Instant): (r: ChatRoom)
    ensures r.unreadCount == (if sender == Some(UserSender) then room.unreadCount + 1 else room.unreadCount)
    ensures r.lastMessageAt == Some(now)
    ensures r.(lastMessageAt := room.lastMessageAt, unreadCount := room.unreadCount) == room
  {
    room.(lastMessageAt := Some(now),
          unreadCount := if sender == Some(UserSender) then room.unreadCount + 1 else room.unreadCount)
  }

  /** saveMessage: the message is stored with its timestamp, then its room
      must exist (otherwise the whole call is rolled back) and is updated. */
  method SaveMessage(rooms: Table<ChatRoom>, messages: Table<ChatMessage>, msg: ChatMessage, now: Instant)
    returns (r: Result<nat, ChatError>)
    requires rooms.Valid() && messages.Valid()
    modifies rooms, messages
    ensures rooms.Valid() && messages.Valid() && rooms.nextId == old(rooms.nextId)
    ensures r.Ok? <==> msg.chatRoomId in old(rooms.rows)
    ensures r.Err? ==> r.error == ChatRoomNotFound && rooms.rows == old(rooms.rows) &&
                       messages.rows == old(messages.rows) && messages.nextId == old(messages.nextId)
    ensures r.Ok? ==>
      && r.value == old(messages.nextId)
      && messages.rows == old(messages.rows)[r.value := msg.(timestamp := Some(now))]
      && rooms.rows == old(rooms.rows)[msg.chatRoomId := AfterMessage(old(rooms.rows)[msg.chatRoomId], msg.senderType, now)]
  {
    if msg.chatRoomId !in rooms.rows {
      return Err(ChatRoomNotFound);
    }
    var id := messages.Insert(msg.(timestamp := Some(now)));
    var room := rooms.rows[msg.chatRoomId];
    rooms.rows := rooms.rows[msg.chatRoomId := AfterMessage(room, msg.senderType, now)];
    r := Ok(id);
  }

  /** markMessagesAsRead: the room's unread count drops to zero. */
  method MarkMessagesAsRead(rooms: Table<ChatRoom>, roomId: nat) returns (r: Result<(), ChatError>)
    requires rooms.Valid()
    modifies rooms
    ensures rooms.Valid() && rooms.nextId == old(rooms.nextId)
    ensures r.Ok? <==> roomId in old(rooms.rows)
    ensures r.Err? ==> r.error == ChatRoomNotFound && rooms.rows == old(rooms.rows)
    ensures r.Ok? ==> rooms.rows == old(rooms.rows)[roomId := Read(old(rooms.rows)[roomId])]
  {
    if roomId !in rooms.rows {
      return Err(ChatRoomNotFound);
    }
    rooms.rows := rooms.rows[roomId := Read(rooms.rows[roomId])];
    r := Ok(());
  }

  function Read(room: ChatRoom): (r: ChatRoom)
    ensures r.unreadCount == 0 && r.(unreadCount := room.unreadCount) == room
  {
    room.(unreadCount := 0)
  }

  /** The room after a run of messages posted at the same moment. */
  function AfterMessages(room: ChatRoom, senders: seq<Option<SenderType>>, now: Instant): ChatRoom
    decreases |senders|
  {
    if senders == [] then room
    else AfterMessage(AfterMessages(room, senders[..|senders| - 1], now), senders[|senders| - 1], now)
  }

  function CountFromUser(senders: seq<Option<SenderType>>): (n: nat)
    ensures n <= |senders|
    decreases |senders|
  {
    if senders == [] then 0
    else CountFromUser(senders[..|senders| - 1]) + (if senders[|senders| - 1] == Some(UserSender) then 1 else 0)
  }

  /** The unread count is the number of customer messages since the room was
      last read: reading and then receiving messages leaves exactly as many
      unread as came from the customer. */
  lemma {:induction false} UnreadCountsUserMessages(room: ChatRoom, senders: seq<Option<SenderType>>, now: Instant)
    ensures AfterMessages(Read(room), senders, now).unreadCount == CountFromUser(senders)
    ensures AfterMessages(room, senders, now).unreadCount == room.unreadCount + CountFromUser(senders)
    decreases |senders|
  {
    if senders != [] {
      UnreadCountsUserMessages(room, senders[..|senders| - 1], now);
    }
  }

  /** Marking as read twice is marking as read once, and nothing but the
      unread count changes. */
  lemma ReadIdempotent(room: ChatRoom)
    ensures Read(Read(room)) == Read(room)
    ensures Read(room).status == room.status && Read(room).lastMessageAt == room.lastMessageAt
  {
  }

  /** getActiveChatRooms, as the set of ids. */
  function ActiveRooms(rooms: map<nat, ChatRoom>): (r: set<nat>)
    ensures forall id :: id in r <==> id in rooms && rooms[id].status == Active
  {
    set id | id in rooms && rooms[id].status == Active
  }

  /** getChatMessages, as the set of ids. */
  function MessagesOf(messages: map<nat, ChatMessage>, roomId: nat): (r: set<nat>)
    ensures forall id :: id in r <==> id in messages && messages[id].chatRoomId == roomId
  {
    set id | id in messages && messages[id].chatRoomId == roomId
  }
}
