/** What a chat request tells the provider: services/vdoc/ai_chat_store.go, limitedAIChatHistory. */
module ChatHistory {
  import opened TextSpace

  datatype Role = User | Assistant

  datatype Attachment = Attachment(name: string, size: nat)

  datatype Message = Message(id: string, role: Role, content: string, attachments: seq<Attachment>, createdAt: int)

  const HISTORY_RUNES: nat := 12000
  const ATTACHMENT_BYTES: nat := 6291456

  datatype Payload = Payload(role: Role, content: string, attachments: seq<Attachment>)

  datatype Share = Share(kept: seq<Attachment>, rest: nat, note: string)

  function Omitted(name: string): string {
    "\n[Earlier attachment omitted from context: " + name + "]"
  }

  /** The attachments that still fit, in order, each taking its share, and a note for every other one. */
  function Fitting(attachments: seq<Attachment>, budget: nat): (r: Share)
    ensures Sizes(r.kept) + r.rest == budget
  {
    if attachments == [] then Share([], budget, "")
    else
      var last := attachments[|attachments| - 1];
      var r := Fitting(attachments[..|attachments| - 1], budget);
      if last.size <= r.rest then
        assert (r.kept + [last])[..|r.kept|] == r.kept;
        Share(r.kept + [last], r.rest - last.size, r.note)
      else Share(r.kept, r.rest, r.note + Omitted(last.name))
  }

  function Sizes(attachments: seq<Attachment>): nat {
    if attachments == [] then 0 else Sizes(attachments[..|attachments| - 1]) + attachments[|attachments| - 1].size
  }

  function Min(a: nat, b: nat): nat {
    if a < b then a else b
  }

  /** A message with the attachments that fit, and a note for the others. */
  function Entry(m: Message, budget: nat): Payload {
    var share := Fitting(m.attachments, budget);
    Payload(m.role, TrimSpace(m.content) + share.note, share.kept)
  }

  function Cut(p: Payload, runes: nat): Payload {
    p.(content := p.content[..Min(|p.content|, runes)])
  }

  predicate Empty(p: Payload) {
    p.content == "" && p.attachments == []
  }

  /** Backwards from the last message, until the runes are used up. */
  function History(messages: seq<Message>, runes: nat, budget: nat): seq<Payload> {
    if messages == [] || runes == 0 then []
    else
      var m := messages[|messages| - 1];
      var earlier := messages[..|messages| - 1];
      var rest := Fitting(m.attachments, budget).rest;
      var p := Cut(Entry(m, budget), runes);
      if Empty(Entry(m, budget)) then History(earlier, runes, rest)
      else History(earlier, runes - |p.content|, rest) + [p]
  }

  function LimitedHistory(messages: seq<Message>): seq<Payload> {
    History(messages, HISTORY_RUNES, ATTACHMENT_BYTES)
  }

  function Reverse<T>(s: seq<T>): seq<T> {
    if s == [] then [] else Reverse(s[1..]) + [s[0]]
  }

  lemma {:induction false} ReverseAppend<T>(s: seq<T>, x: T)
    ensures Reverse(s + [x]) == [x] + Reverse(s)
  {
    if s == [] {
      assert s + [x] == [x] && [x][1..] == [];
    } else {
      assert (s + [x])[1..] == s[1..] + [x];
      ReverseAppend(s[1..], x);
    }
  }

  lemma Associate<T>(a: seq<T>, b: seq<T>, c: seq<T>)
    ensures a + b + c == a + (b + c)
  {
  }

  /** The loop over one message's attachments. */
  method TakeAttachments(m: Message, budget: nat) returns (attachments: seq<Attachment>, rest: nat, content: string)
    ensures Entry(m, budget) == Payload(m.role, content, attachments) && Fitting(m.attachments, budget).rest == rest
  {
    hide TrimSpace;
    hide Omitted;
    attachments, rest, content := [], budget, TrimSpace(m.content);
    ghost var note := "";
    for j := 0 to |m.attachments|
      invariant Fitting(m.attachments[..j], budget) == Share(attachments, rest, note)
      invariant content == TrimSpace(m.content) + note
    {
      var attachment := m.attachments[j];
      assert m.attachments[..j + 1][..j] == m.attachments[..j];
      if attachment.size <= rest {
        attachments := attachments + [attachment];
        rest := rest - attachment.size;
      } else {
        Associate(TrimSpace(m.content), note, Omitted(attachment.name));
        content := content + Omitted(attachment.name);
        note := note + Omitted(attachment.name);
      }
    }
    assert m.attachments[..|m.attachments|] == m.attachments;
  }

  method LimitedAIChatHistory(messages: seq<Message>) returns (history: seq<Payload>)
    ensures history == LimitedHistory(messages)
  {
    hide Fitting;
    hide Entry;
    var remaining := HISTORY_RUNES;
    var attachmentBudget := ATTACHMENT_BYTES;
    var reversed: seq<Payload> := [];
    var i := |messages|;
    assert messages[..i] == messages;
    while i > 0 && remaining > 0
      invariant 0 <= i <= |messages| && remaining >= 0 && attachmentBudget >= 0
      invariant History(messages[..i], remaining, attachmentBudget) + Reverse(reversed) == LimitedHistory(messages)
    {
      i := i - 1;
      assert messages[..i + 1][..i] == messages[..i];
      var attachments, content;
      attachments, attachmentBudget, content := TakeAttachments(messages[i], attachmentBudget);
      if content == "" && attachments == [] {
        continue;
      }
      assert content[..|content|] == content;
      var runes := content;
      if |runes| > remaining {
        runes := runes[..remaining];
      }
      var payload := Payload(messages[i].role, runes, attachments);
      ReverseAppend(reversed, payload);
      Associate(History(messages[..i], remaining - |runes|, attachmentBudget), [payload], Reverse(reversed));
      reversed := reversed + [payload];
      remaining := remaining - |runes|;
    }
    history := Reversed(reversed);
  }

  method Reversed<T>(s: seq<T>) returns (r: seq<T>)
    ensures r == Reverse(s)
  {
    r := [];
    for i := 0 to |s|
      invariant r == Reverse(s[..i])
    {
      assert s[..i + 1] == s[..i] + [s[i]];
      ReverseAppend(s[..i], s[i]);
      r := [s[i]] + r;
    }
    assert s[..|s|] == s;
  }

  function Runes(history: seq<Payload>): nat {
    if history == [] then 0 else Runes(history[..|history| - 1]) + |history[|history| - 1].content|
  }

  function Bytes(history: seq<Payload>): nat {
    if history == [] then 0 else Bytes(history[..|history| - 1]) + Sizes(history[|history| - 1].attachments)
  }

  lemma TotalsAppend(history: seq<Payload>, p: Payload)
    ensures Runes(history + [p]) == Runes(history) + |p.content|
    ensures Bytes(history + [p]) == Bytes(history) + Sizes(p.attachments)
  {
    assert (history + [p])[..|history|] == history;
  }

  /** Neither budget is ever exceeded. */
  lemma {:induction false} HistoryFits(messages: seq<Message>, runes: nat, budget: nat)
    ensures Runes(History(messages, runes, budget)) <= runes
    ensures Bytes(History(messages, runes, budget)) <= budget
    decreases |messages|
  {
    hide Runes;
    hide Bytes;
    TotalsOfNone();
    if messages != [] && runes > 0 {
      var m := messages[|messages| - 1];
      var earlier := messages[..|messages| - 1];
      var rest := Fitting(m.attachments, budget).rest;
      var p := Cut(Entry(m, budget), runes);
      EntryFits(m, runes, budget);
      hide Entry;
      hide Cut;
      hide Fitting;
      if Empty(Entry(m, budget)) {
        HistoryFits(earlier, runes, rest);
      } else {
        HistoryFits(earlier, runes - |p.content|, rest);
        TotalsAppend(History(earlier, runes - |p.content|, rest), p);
      }
    }
  }

  lemma TotalsOfNone()
    ensures Runes([]) == 0 && Bytes([]) == 0
  {
  }

  lemma EntryFits(m: Message, runes: nat, budget: nat)
    ensures |Cut(Entry(m, budget), runes).content| <= runes
    ensures Sizes(Cut(Entry(m, budget), runes).attachments) + Fitting(m.attachments, budget).rest == budget
  {
  }

  /** What a message says, whole. */
  function Whole(m: Message): Payload {
    Payload(m.role, TrimSpace(m.content), m.attachments)
  }

  function WholeHistory(messages: seq<Message>): seq<Payload> {
    if messages == [] then []
    else
      var p := Whole(messages[|messages| - 1]);
      var earlier := WholeHistory(messages[..|messages| - 1]);
      if Empty(p) then earlier else earlier + [p]
  }

  lemma {:induction false} AllFit(attachments: seq<Attachment>, budget: nat)
    requires Sizes(attachments) <= budget
    ensures Fitting(attachments, budget) == Share(attachments, budget - Sizes(attachments), "")
  {
    if attachments != [] {
      AllFit(attachments[..|attachments| - 1], budget);
      assert attachments == attachments[..|attachments| - 1] + [attachments[|attachments| - 1]];
    }
  }

  lemma WholeFits(m: Message, runes: nat, budget: nat)
    requires |Whole(m).content| <= runes && Sizes(m.attachments) <= budget
    ensures Entry(m, budget) == Whole(m) && Cut(Whole(m), runes) == Whole(m)
    ensures Fitting(m.attachments, budget).rest == budget - Sizes(m.attachments)
  {
    hide TrimSpace;
    AllFit(m.attachments, budget);
    assert TrimSpace(m.content) + "" == TrimSpace(m.content);
    assert Whole(m).content[..|Whole(m).content|] == Whole(m).content;
  }

  /** A conversation within both budgets is sent whole and in order. */
  lemma {:induction false} ShortHistoryWhole(messages: seq<Message>, runes: nat, budget: nat)
    requires Runes(WholeHistory(messages)) < runes && Bytes(WholeHistory(messages)) <= budget
    ensures History(messages, runes, budget) == WholeHistory(messages)
    decreases |messages|
  {
    hide Runes;
    hide Bytes;
    hide Entry;
    hide Cut;
    hide Fitting;
    if messages != [] {
      var m := messages[|messages| - 1];
      var earlier := messages[..|messages| - 1];
      var p := Whole(m);
      if Empty(p) {
        assert Sizes(m.attachments) == 0;
      } else {
        TotalsAppend(WholeHistory(earlier), p);
      }
      WholeFits(m, runes, budget);
      hide Whole;
      ShortHistoryWhole(earlier, runes - |p.content|, budget - Sizes(m.attachments));
    }
  }

  // Beyond the budgets

  /** Attachment j is taken exactly if it fits beside those taken before it, and is named otherwise. */
  lemma TakenIfItFits(attachments: seq<Attachment>, budget: nat, j: nat)
    requires j < |attachments|
    ensures var (before, after) := (Fitting(attachments[..j], budget), Fitting(attachments[..j + 1], budget));
            if Sizes(before.kept) + attachments[j].size <= budget
            then after.kept == before.kept + [attachments[j]] && after.note == before.note
            else after.kept == before.kept && after.note == before.note + Omitted(attachments[j].name)
  {
    assert attachments[..j + 1][..j] == attachments[..j];
    assert attachments[..j + 1][j] == attachments[j];
  }

  /** The entries there would be without a limit on the text. */
  function Entries(messages: seq<Message>, budget: nat): seq<Payload> {
    if messages == [] then []
    else
      var m := messages[|messages| - 1];
      var earlier := Entries(messages[..|messages| - 1], Fitting(m.attachments, budget).rest);
      if Empty(Entry(m, budget)) then earlier else earlier + [Entry(m, budget)]
  }

  /** The last of the entries, whole but for the first, which may be cut short at its end; nothing is
      left out or cut unless the limit on the text is used up. */
  ghost predicate LastOf(history: seq<Payload>, entries: seq<Payload>, runes: nat) {
    && |history| <= |entries|
    && (forall i | 0 < i < |history| :: history[i] == entries[|entries| - |history| + i])
    && (history != [] ==>
          var whole := entries[|entries| - |history|];
          history[0] == whole.(content := history[0].content) && history[0].content <= whole.content)
    && (Runes(history) == runes || history == entries)
  }

  lemma LastOfAppend(history: seq<Payload>, entries: seq<Payload>, left: nat, p: Payload)
    requires LastOf(history, entries, left)
    ensures LastOf(history + [p], entries + [p], left + |p.content|)
  {
    TotalsAppend(history, p);
    var longer, all := history + [p], entries + [p];
    if history != [] {
      assert longer[0] == history[0] && all[|all| - |longer|] == entries[|entries| - |history|];
    }
    forall i | 0 < i < |longer| ensures longer[i] == all[|all| - |longer| + i] {
      assert i < |history| ==> history[i] == entries[|entries| - |history| + i];
    }
    hide Runes;
  }

  lemma CutLast(entries: seq<Payload>, p: Payload, runes: nat)
    requires |p.content| > runes
    ensures LastOf([Cut(p, runes)], entries + [p], runes)
  {
    TotalsAppend([], Cut(p, runes));
    assert [] + [Cut(p, runes)] == [Cut(p, runes)];
    assert Runes([]) == 0;
  }

  /** Over budget the latest entries are sent, up to the last rune there is room for. */
  lemma {:induction false} LatestAreSent(messages: seq<Message>, runes: nat, budget: nat)
    ensures LastOf(History(messages, runes, budget), Entries(messages, budget), runes)
    decreases |messages|, 0
  {
    hide LastOf;
    hide Entry;
    hide Fitting;
    hide Cut;
    if messages == [] || runes == 0 {
      NothingSent(Entries(messages, budget), runes);
    } else {
      var m := messages[|messages| - 1];
      var earlier := messages[..|messages| - 1];
      var rest := Fitting(m.attachments, budget).rest;
      var whole := Entry(m, budget);
      if Empty(whole) {
        LatestAreSent(earlier, runes, rest);
      } else {
        LatestSent(earlier, whole, runes, rest);
      }
    }
  }

  lemma NothingSent(entries: seq<Payload>, runes: nat)
    requires entries == [] || runes == 0
    ensures LastOf([], entries, runes)
  {
  }

  lemma {:induction false} LatestSent(earlier: seq<Message>, whole: Payload, runes: nat, rest: nat)
    ensures var p := Cut(whole, runes);
            LastOf(History(earlier, runes - |p.content|, rest) + [p], Entries(earlier, rest) + [whole], runes)
    decreases |earlier|, 1
  {
    hide LastOf;
    hide Runes;
    var p := Cut(whole, runes);
    assert History(earlier, 0, rest) == [];
    if |whole.content| <= runes {
      assert whole.content[..|whole.content|] == whole.content;
      hide History;
      LatestAreSent(earlier, runes - |p.content|, rest);
      LastOfAppend(History(earlier, runes - |p.content|, rest), Entries(earlier, rest), runes - |p.content|, whole);
    } else {
      hide History;
      hide Entries;
      CutLast(Entries(earlier, rest), whole, runes);
      assert [] + [p] == [p];
    }
  }
}
