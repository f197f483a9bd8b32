/**
 Chat generations shared by several processes: services/vdoc/ai_chat_store.go,
 services/vdoc/ai_postgres_repository.go and db/pgdb/vdoc/ai_repo.go. A request reserves a fresh
 token, reads the conversation, asks the provider with no lock held, and commits both messages in
 one transaction that succeeds only while its token is still on the session row.
 */
module AiChat {
  import opened Wrappers
  import opened ChatHistory

  /** A session row together with its message rows in the order they were committed. */
  datatype Session = Session(token: string, updatedAt: int, messages: seq<Message>)

  type Rows = map<string, Session>

  // The conditional row updates

  ghost function Reserved(rows: Rows, id: string, token: string): Rows {
    if id in rows then rows[id := rows[id].(token := token)] else rows
  }

  ghost predicate Owns(rows: Rows, id: string, token: string) {
    id in rows && rows[id].token == token
  }

  ghost function Cleared(rows: Rows, id: string, token: string, updatedAt: Option<int>): Rows {
    if Owns(rows, id, token) then
      rows[id := rows[id].(token := "", updatedAt := updatedAt.GetOr(rows[id].updatedAt))]
    else rows
  }

  ghost predicate Absent(rows: Rows, id: string) {
    forall s | s in rows :: forall m | m in rows[s].messages :: m.id != id
  }

  ghost function Inserted(rows: Rows, session: string, m: Message): Rows {
    if session in rows then rows[session := rows[session].(messages := rows[session].messages + [m])] else rows
  }

  lemma AbsentAfter(rows: Rows, s: string, row: Session, id: string)
    requires s in rows && rows[s].messages <= row.messages
    ensures Absent(rows[s := row], id) <==>
            Absent(rows, id) && forall m | m in row.messages[|rows[s].messages|..] :: m.id != id
  {
    var n := |rows[s].messages|;
    var after := rows[s := row];
    assert row.messages == rows[s].messages + row.messages[n..];
    if Absent(after, id) {
      forall t, m | t in rows && m in rows[t].messages ensures m.id != id {
        assert m in after[t].messages;
      }
      assert forall m | m in row.messages[n..] :: m in after[s].messages;
    }
  }

  class ChatRepository {
    var rows: Rows

    method ReserveAIChatGeneration(id: string, token: string) returns (updated: bool)
      modifies this
      ensures updated <==> id in old(rows)
      ensures rows == Reserved(old(rows), id, token)
    {
      updated := id in rows;
      if updated {
        rows := rows[id := rows[id].(token := token)];
      }
    }

    method CompleteAIChatGeneration(id: string, expected: string, updatedAt: Option<int>) returns (updated: bool)
      modifies this
      ensures updated <==> Owns(old(rows), id, expected)
      ensures rows == Cleared(old(rows), id, expected, updatedAt)
    {
      updated := id in rows && rows[id].token == expected;
      if updated {
        var row := rows[id].(token := "");
        if updatedAt.Some? {
          row := row.(updatedAt := updatedAt.value);
        }
        rows := rows[id := row];
      }
    }

    method InsertAIChatMessageIfAbsent(session: string, m: Message) returns (inserted: bool)
      requires session in rows
      modifies this
      ensures inserted <==> Absent(old(rows), m.id)
      ensures rows == if inserted then Inserted(old(rows), session, m) else old(rows)
    {
      inserted := !exists s | s in rows :: exists i | 0 <= i < |rows[s].messages| :: rows[s].messages[i].id == m.id;
      if inserted {
        rows := rows[session := rows[session].(messages := rows[session].messages + [m])];
      }
    }

    /** The transaction that ends a generation: all of it or nothing. */
    method CompleteTransaction(id: string, token: string, updatedAt: Option<int>, user: Option<Message>,
                               assistant: Option<Message>, guard: bool) returns (committed: bool)
      requires user.Some? && assistant.Some? ==> user.value.id != assistant.value.id
      modifies this
      ensures committed <==>
              && guard && Owns(old(rows), id, token)
              && (user.Some? ==> Absent(old(rows), user.value.id))
              && (assistant.Some? ==> Absent(old(rows), assistant.value.id))
      ensures rows == if committed then Completed(old(rows), id, token, updatedAt, Listed(user) + Listed(assistant))
              else old(rows)
    {
      var before := rows;
      if !guard {
        return false;
      }
      committed := CompleteAIChatGeneration(id, token, updatedAt);
      if !committed {
        return false;
      }
      ghost var messages := before[id].messages;
      ghost var cleared := rows[id];
      assert messages[|messages|..] == [];
      if user.Some? {
        AbsentAfter(before, id, cleared, user.value.id);
        committed := InsertAIChatMessageIfAbsent(id, user.value);
        if !committed {
          rows := before;
          return false;
        }
      }
      if assistant.Some? {
        ghost var row := rows[id];
        assert row.messages[|messages|..] == Listed(user);
        AbsentAfter(before, id, row, assistant.value.id);
        assert rows == before[id := row];
        committed := InsertAIChatMessageIfAbsent(id, assistant.value);
        if !committed {
          rows := before;
          return false;
        }
      }
      assert rows[id].messages == messages + (Listed(user) + Listed(assistant));
      assert rows == before[id := rows[id]];
    }
  }

  ghost function Listed(m: Option<Message>): seq<Message> {
    if m.Some? then [m.value] else []
  }

  ghost function Completed(rows: Rows, id: string, token: string, updatedAt: Option<int>, added: seq<Message>): Rows {
    if Owns(rows, id, token) then
      rows[id := Session("", updatedAt.GetOr(rows[id].updatedAt), rows[id].messages + added)]
    else rows
  }
}
