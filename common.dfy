/**
 * `minerva.tools.common.resolve_telegram_chat_ids`: the Telegram chat ids
 * given as repeated command-line flags or as one comma-separated environment
 * value.  `minerva.tools.podcast` carries a copy of the same code, which this
 * module models as well.
 */
module ChatIds {
  import opened Wrappers
  import opened Seqs
  import opened Text

  /** A chat id as the function returns it: non-empty, stripped and free of commas. */
  predicate IsChatId(id: string) {
    id != [] && IsTrimmed(id) && ',' !in id
  }

  predicate AllChatIds(ids: seq<string>) {
    forall k :: 0 <= k < |ids| ==> IsChatId(ids[k])
  }

  /** The stripped, non-blank pieces, in order. */
  function PieceIds(pieces: seq<string>): (ids: seq<string>)
    ensures |ids| <= |pieces|
    ensures (forall k :: 0 <= k < |pieces| ==> ',' !in pieces[k]) ==> AllChatIds(ids)
    decreases |pieces|
  {
    if pieces == [] then []
    else
      var last := pieces[|pieces| - 1];
      var id := Strip(last);
      var ids := PieceIds(pieces[..|pieces| - 1]);
      assert ',' !in last ==> ',' !in id by {
        if ',' !in last {
          TrimKeepsOut(last, IsSpace, ',');
        }
      }
      ids + (if id != [] then [id] else [])
  }

  /** The ids one flag value contributes: its comma-separated pieces, stripped, blanks dropped. */
  function ValueIds(rawValue: string): (ids: seq<string>)
    ensures AllChatIds(ids)
  {
    PieceIds(Split(rawValue, ','))
  }

  /** The ids of every value, flattened in the order of the values. */
  function ValuesIds(values: seq<string>): (ids: seq<string>)
    ensures AllChatIds(ids)
    decreases |values|
  {
    if values == [] then []
    else
      var ids := ValuesIds(values[..|values| - 1]) + ValueIds(values[|values| - 1]);
      AllChatIdsConcat(ValuesIds(values[..|values| - 1]), ValueIds(values[|values| - 1]));
      ids
  }

  /** What `resolve_telegram_chat_ids` returns; `None` and `[]` give `[]`. */
  function ChatIdsOf(rawValues: Option<seq<string>>): (ids: seq<string>)
    ensures AllChatIds(ids)
  {
    if rawValues.None? || rawValues.value == [] then [] else ValuesIds(rawValues.value)
  }

  lemma AllChatIdsConcat(a: seq<string>, b: seq<string>)
    requires AllChatIds(a) && AllChatIds(b)
    ensures AllChatIds(a + b)
  {
    forall k | 0 <= k < |a + b|
      ensures IsChatId((a + b)[k])
    {
      if k >= |a| {
        assert (a + b)[k] == b[k - |a|];
      }
    }
  }

  lemma PieceIdsSnoc(pieces: seq<string>, j: nat)
    requires j < |pieces|
    ensures var id := Strip(pieces[j]);
      PieceIds(pieces[..j + 1]) == PieceIds(pieces[..j]) + (if id != [] then [id] else [])
  {
    assert pieces[..j + 1][..j] == pieces[..j];
  }

  lemma ValuesIdsSnoc(values: seq<string>, i: nat)
    requires i < |values|
    ensures ValuesIds(values[..i + 1]) == ValuesIds(values[..i]) + ValueIds(values[i])
  {
    assert values[..i + 1][..i] == values[..i];
  }

  /** The two nested loops of `resolve_telegram_chat_ids`. */
  method ResolveTelegramChatIds(rawValues: Option<seq<string>>) returns (chatIds: seq<string>)
    ensures chatIds == ChatIdsOf(rawValues)
  {
    if rawValues.None? || rawValues.value == [] {
      return [];
    }
    var values := rawValues.value;
    chatIds := [];
    for i := 0 to |values|
      invariant chatIds == ValuesIds(values[..i])
    {
      var pieces := Split(values[i], ',');
      ghost var before := chatIds;
      for j := 0 to |pieces|
        invariant chatIds == before + PieceIds(pieces[..j])
      {
        var chatId := Strip(pieces[j]);
        PieceIdsSnoc(pieces, j);
        if chatId != [] {
          ConcatAssoc(before, PieceIds(pieces[..j]), [chatId]);
          chatIds := chatIds + [chatId];
        } else {
          assert PieceIds(pieces[..j]) + [] == PieceIds(pieces[..j]);
        }
      }
      assert pieces[..|pieces|] == pieces;
      ValuesIdsSnoc(values, i);
    }
    assert values[..|values|] == values;
  }

  /** `None`, `[]` and `[""]` all give no ids. */
  lemma NoIds()
    ensures ChatIdsOf(None) == [] && ChatIdsOf(Some([])) == [] && ChatIdsOf(Some([""])) == []
  {
    assert Split("", ',') == [""];
    assert [""][..0] == [];
  }

  /** Several values give the ids of each, concatenated in order. */
  lemma {:induction false} ValuesIdsConcat(a: seq<string>, b: seq<string>)
    ensures ValuesIds(a + b) == ValuesIds(a) + ValuesIds(b)
    decreases |b|
  {
    if b == [] {
      assert a + b == a;
    } else {
      var init := b[..|b| - 1];
      assert (a + b)[..|a + b| - 1] == a + init;
      ValuesIdsConcat(a, init);
      ConcatAssoc(ValuesIds(a), ValuesIds(init), ValueIds(b[|b| - 1]));
    }
  }

  /** A value that is already a chat id gives exactly itself. */
  lemma ValueIdsOfId(id: string)
    requires IsChatId(id)
    ensures ValueIds(id) == [id]
  {
    assert IndexOf(id, ',') == |id|;
    assert Split(id, ',') == [id];
    StripOfTrimmed(id);
    assert [id][..0] == [];
  }

  /** Chat ids passed one per flag come back as they were: order and duplicates kept. */
  lemma {:induction false} ValuesIdsOfIds(ids: seq<string>)
    requires AllChatIds(ids)
    ensures ValuesIds(ids) == ids
    decreases |ids|
  {
    if ids != [] {
      var init, last := ids[..|ids| - 1], ids[|ids| - 1];
      assert AllChatIds(init) by {
        forall k | 0 <= k < |init| ensures IsChatId(init[k]) {
          assert init[k] == ids[k];
        }
      }
      assert ValuesIds(ids) == ValuesIds(init) + ValueIds(last);
      ValuesIdsOfIds(init);
      ValueIdsOfId(last);
      assert init + [last] == ids;
    }
  }

  /** Stripped non-blank pieces of chat ids are those ids. */
  lemma {:induction false} PieceIdsOfIds(ids: seq<string>)
    requires AllChatIds(ids)
    ensures PieceIds(ids) == ids
    decreases |ids|
  {
    if ids != [] {
      var init := ids[..|ids| - 1];
      PieceIdsOfIds(init);
      StripOfTrimmed(ids[|ids| - 1]);
      assert init + [ids[|ids| - 1]] == ids;
    }
  }

  /** A value is read piece by piece between its commas: each piece stripped, blank ones dropped. */
  lemma JoinedPieces(pieces: seq<string>)
    requires pieces != [] && forall k :: 0 <= k < |pieces| ==> ',' !in pieces[k]
    ensures ValueIds(Join([','], pieces)) == PieceIds(pieces)
  {
    SplitOfJoin(pieces, ',');
  }

  /** Chat ids joined with commas in one value come back as they were. */
  lemma JoinedIds(ids: seq<string>)
    requires ids != [] && AllChatIds(ids)
    ensures ValueIds(Join([','], ids)) == ids
  {
    JoinedPieces(ids);
    PieceIdsOfIds(ids);
  }

  /** Resolving the resolved ids again changes nothing. */
  lemma ChatIdsIdempotent(rawValues: Option<seq<string>>)
    ensures ChatIdsOf(Some(ChatIdsOf(rawValues))) == ChatIdsOf(rawValues)
  {
    var ids := ChatIdsOf(rawValues);
    if ids != [] {
      ValuesIdsOfIds(ids);
    }
  }
}
