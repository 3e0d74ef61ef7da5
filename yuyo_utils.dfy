/** `utils/yuyo_utils.py`: the delete button whose own custom id carries the ids allowed
    to delete the message, and the decision the button's callback takes. */
module YuyoUtils {
  import opened Wrappers
  import Text
  import Numerals

  /** `DELETE_CUSTOM_ID`, the namespace prefix of every delete button's custom id. */
  const DeleteCustomId: string := "AUTHOR_DELETE_BUTTON:"

  /** Python's `str.removeprefix`: strips `prefix` once, and only when `s` starts with it. */
  function RemovePrefix(s: string, prefix: string): (r: string)
    ensures prefix <= s ==> s == prefix + r
    ensures !(prefix <= s) ==> r == s
  {
    if prefix <= s then s[|prefix|..] else s
  }

  /** Each comma-separated piece read as a snowflake id: `None` (the `ValueError` that
      `int()` raises) as soon as one piece is not a decimal numeral. */
  function ParsePieces(pieces: seq<string>): (r: Option<seq<nat>>)
    ensures r.Some? <==> forall i :: 0 <= i < |pieces| ==> Numerals.ParseNat(pieces[i]).Some?
    ensures r.Some? ==>
      && |r.value| == |pieces|
      && (forall i :: 0 <= i < |pieces| ==> Numerals.ParseNat(pieces[i]) == Some(r.value[i]))
  {
    if |pieces| == 0 then Some([])
    else
      match Numerals.ParseNat(pieces[0])
      case None => None
      case Some(id) =>
        match ParsePieces(pieces[1..])
        case None => None
        case Some(ids) => Some([id] + ids)
  }

  /** Python's `set(...)` of a list of ids. */
  function IdSet(ids: seq<nat>): set<nat> {
    set i | 0 <= i < |ids| :: ids[i]
  }

  /** `custom_id.removeprefix(DELETE_CUSTOM_ID).split(",")`. */
  function Pieces(customId: string): seq<string> {
    Text.Split(RemovePrefix(customId, DeleteCustomId), ',')
  }

  /** The set of author ids carried by a custom id:
      `set(map(Snowflake, custom_id.removeprefix(DELETE_CUSTOM_ID).split(",")))`. */
  function AuthorIds(customId: string): (r: Option<set<nat>>)
    ensures r.Some? <==> forall i :: 0 <= i < |Pieces(customId)| ==> Numerals.ParseNat(Pieces(customId)[i]).Some?
    ensures r.Some? ==> forall id :: id in r.value <==>
      exists i :: 0 <= i < |Pieces(customId)| && Numerals.ParseNat(Pieces(customId)[i]) == Some(id)
  {
    var pieces := Pieces(customId);
    var parsed := ParsePieces(pieces);
    if parsed.None? then
      assert !forall i :: 0 <= i < |pieces| ==> Numerals.ParseNat(pieces[i]).Some?;
      None
    else
      var ids := parsed.value;
      assert forall id :: id in IdSet(ids) <==> exists i :: 0 <= i < |pieces| && Numerals.ParseNat(pieces[i]) == Some(id) by {
        forall id ensures id in IdSet(ids) <==> exists i :: 0 <= i < |pieces| && Numerals.ParseNat(pieces[i]) == Some(id) {
          if id in IdSet(ids) {
            var i :| 0 <= i < |ids| && ids[i] == id;
            assert Numerals.ParseNat(pieces[i]) == Some(id);
          }
        }
      }
      Some(IdSet(ids))
  }

  /** A guild member, as far as the callback looks at one: its role ids. */
  datatype Member = Member(roleIds: seq<nat>)

  /** The parts of a component interaction that the callback reads. */
  datatype Interaction = Interaction(customId: string, userId: nat, member: Option<Member>)

  /** `user.id in author_ids or member and author_ids.intersection(member.role_ids)`. */
  predicate Authorized(authorIds: set<nat>, userId: nat, member: Option<Member>)
  {
    userId in authorIds
    || (member.Some? && exists i :: 0 <= i < |member.value.roleIds| && member.value.roleIds[i] in authorIds)
  }

  /** What the callback does; exactly one of these happens per press. */
  datatype Response =
    | DeferAndDelete           // defer as a message update, then delete the message
    | EphemeralReply(text: string)  // a reply only the presser sees; the message stays
    | MalformedId              // `Snowflake(...)` raised: no response is sent

  const NotOwnerText: string := "You do not own this message"

  /** `delete_button_callback`. */
  function DeleteButtonCallback(i: Interaction): (r: Response)
    ensures r == DeferAndDelete <==>
      AuthorIds(i.customId).Some? && Authorized(AuthorIds(i.customId).value, i.userId, i.member)
    ensures r.EphemeralReply? <==>
      AuthorIds(i.customId).Some? && !Authorized(AuthorIds(i.customId).value, i.userId, i.member)
    ensures r.EphemeralReply? ==> r.text == NotOwnerText
    ensures r == MalformedId <==> AuthorIds(i.customId).None?
  {
    match AuthorIds(i.customId)
    case None => MalformedId
    case Some(ids) =>
      if Authorized(ids, i.userId, i.member) then DeferAndDelete else EphemeralReply(NotOwnerText)
  }

  /** The component client hands a press to the delete callback only when its custom id
      starts with `DELETE_CUSTOM_ID` (a constant id registered with prefix matching);
      `None` means the press is not the delete button's. */
  function DispatchDeleteButton(i: Interaction): (r: Option<Response>)
    ensures r.Some? <==> DeleteCustomId <= i.customId
    ensures r.Some? ==> r.value == DeleteButtonCallback(i)
  {
    if DeleteCustomId <= i.customId then Some(DeleteButtonCallback(i)) else None
  }

  /** The custom id of a delete button for the given owners. */
  function DeleteButtonId(ids: seq<nat>): string {
    DeleteCustomId + Text.Join(IdNumerals(ids), ',')
  }

  /** The decimal numeral of each id. */
  function IdNumerals(ids: seq<nat>): (r: seq<string>)
    ensures |r| == |ids| && forall i :: 0 <= i < |ids| ==> r[i] == Numerals.Decimal(ids[i])
  {
    if |ids| == 0 then [] else [Numerals.Decimal(ids[0])] + IdNumerals(ids[1..])
  }

  lemma StripBuiltPrefix(body: string)
    ensures RemovePrefix(DeleteCustomId + body, DeleteCustomId) == body
  {
    assert DeleteCustomId <= DeleteCustomId + body;
    assert (DeleteCustomId + body)[|DeleteCustomId|..] == body;
  }

  lemma ParseIdNumerals(ids: seq<nat>)
    ensures ParsePieces(IdNumerals(ids)) == Some(ids)
  {
    var numerals := IdNumerals(ids);
    forall i | 0 <= i < |ids| ensures Numerals.ParseNat(numerals[i]) == Some(ids[i]) {
      Numerals.ParseDecimal(ids[i]);
    }
    var r := ParsePieces(numerals);
    assert r.Some?;
    assert r.value == ids;
  }

  lemma IdNumeralsHaveNoComma(ids: seq<nat>)
    ensures forall i :: 0 <= i < |ids| ==> ',' !in IdNumerals(ids)[i]
  {
    forall i | 0 <= i < |ids| ensures ',' !in IdNumerals(ids)[i] {
      Numerals.DecimalHasNo(ids[i], ',');
    }
  }

  /** Round trip: the custom id built from a non-empty list of owner ids parses back to
      exactly the set of those ids. */
  lemma TokenRoundTrip(ids: seq<nat>)
    requires |ids| >= 1
    ensures AuthorIds(DeleteButtonId(ids)) == Some(IdSet(ids))
  {
    var numerals := IdNumerals(ids);
    StripBuiltPrefix(Text.Join(numerals, ','));
    IdNumeralsHaveNoComma(ids);
    Text.SplitJoin(numerals, ',');
    ParseIdNumerals(ids);
  }

  /** Owner lists with the same ids, in any order and with any repetition, make buttons
      that authorise the same presses. */
  lemma OrderAndDuplicatesIrrelevant(a: seq<nat>, b: seq<nat>)
    requires |a| >= 1 && |b| >= 1 && IdSet(a) == IdSet(b)
    ensures AuthorIds(DeleteButtonId(a)) == AuthorIds(DeleteButtonId(b))
  {
    TokenRoundTrip(a);
    TokenRoundTrip(b);
  }

  /** A press on a button built for a non-empty owner list reaches the callback, which
      decides it by those owners alone: delete for a listed user or a member holding a
      listed role, the "You do not own this message" reply for anyone else. */
  lemma ButtonDecides(ids: seq<nat>, userId: nat, member: Option<Member>)
    requires |ids| >= 1
    ensures DispatchDeleteButton(Interaction(DeleteButtonId(ids), userId, member)) ==
      Some(if Authorized(IdSet(ids), userId, member) then DeferAndDelete else EphemeralReply(NotOwnerText))
  {
    TokenRoundTrip(ids);
  }

  /** A piece of `split` that is not all digits makes the whole custom id malformed. */
  lemma BadPieceIsMalformed(customId: string, k: nat)
    requires k < |Pieces(customId)|
    requires !(|Pieces(customId)[k]| >= 1 && Numerals.AllDigits(Pieces(customId)[k]))
    ensures AuthorIds(customId) == None
  {
  }

  /** The bare prefix carries one empty piece, which is not an id. */
  lemma BarePrefixIsMalformed()
    ensures AuthorIds(DeleteCustomId) == None
  {
    assert RemovePrefix(DeleteCustomId, DeleteCustomId) == "";
    BadPieceIsMalformed(DeleteCustomId, 0);
  }

  /** A trailing comma leaves an empty last piece, which is not an id. */
  lemma TrailingCommaIsMalformed(ids: seq<nat>)
    requires |ids| >= 1
    ensures AuthorIds(DeleteButtonId(ids) + ",") == None
  {
    var numerals := IdNumerals(ids);
    var pieces := numerals + [""];
    IdNumeralsHaveNoComma(ids);
    assert forall i :: 0 <= i < |pieces| ==> ',' !in pieces[i];
    assert Text.Join(pieces, ',') == Text.Join(numerals, ',') + "," by {
      JoinAppend(numerals, "", ',');
    }
    var customId := DeleteButtonId(ids) + ",";
    assert customId == DeleteCustomId + Text.Join(pieces, ',');
    StripBuiltPrefix(Text.Join(pieces, ','));
    Text.SplitJoin(pieces, ',');
    BadPieceIsMalformed(customId, |pieces| - 1);
  }

  lemma {:induction false} JoinAppend(pieces: seq<string>, last: string, sep: char)
    requires |pieces| >= 1
    ensures Text.Join(pieces + [last], sep) == Text.Join(pieces, sep) + [sep] + last
  {
    if |pieces| > 1 {
      JoinAppend(pieces[1..], last, sep);
      assert (pieces + [last])[1..] == pieces[1..] + [last];
    }
  }

  /** The prefix is stripped once only: a doubled prefix leaves a first piece that starts
      with a letter, so the id is malformed. */
  lemma DoublePrefixIsMalformed(rest: string)
    ensures AuthorIds(DeleteCustomId + DeleteCustomId + rest) == None
  {
    var customId := DeleteCustomId + DeleteCustomId + rest;
    var stripped := DeleteCustomId + rest;
    assert customId == DeleteCustomId + stripped;
    StripBuiltPrefix(stripped);
    assert stripped[0] == 'A';
    var pieces := Text.Split(stripped, ',');
    assert pieces[0][0] == 'A';
    BadPieceIsMalformed(customId, 0);
  }

  /** Outside a guild there is no member, and only the presser's own id decides. */
  lemma NoMemberMeansUserIdOnly(authorIds: set<nat>, userId: nat)
    ensures Authorized(authorIds, userId, None) <==> userId in authorIds
  {
  }

  /** Role ids are consulted only for a member: two presses that differ only in the
      member's roles get the same answer when the presser owns the message. */
  lemma OwnerNeverNeedsRoles(authorIds: set<nat>, userId: nat, member: Option<Member>)
    requires userId in authorIds
    ensures Authorized(authorIds, userId, member)
  {
  }

  lemma WorkedExampleNumerals()
    ensures Numerals.Decimal(111) == "111" && Numerals.Decimal(222) == "222"
  {
    assert Numerals.Decimal(11) == "11";
    assert Numerals.Decimal(22) == "22";
  }

  /** `AUTHOR_DELETE_BUTTON:111,222` carries the owners 111 and 222. */
  lemma WorkedExampleIds(customId: string)
    requires customId == "AUTHOR_DELETE_BUTTON:111,222"
    ensures AuthorIds(customId) == Some({111, 222})
  {
    WorkedExampleNumerals();
    assert IdNumerals([111, 222]) == ["111", "222"];
    assert Text.Join(["111", "222"], ',') == "111,222";
    assert customId == DeleteButtonId([111, 222]);
    TokenRoundTrip([111, 222]);
    assert IdSet([111, 222]) == {111, 222};
  }

  /** In the worked example, the owner 111 may delete. */
  lemma WorkedExampleOwner(customId: string)
    requires customId == "AUTHOR_DELETE_BUTTON:111,222"
    ensures DeleteButtonCallback(Interaction(customId, 111, None)) == DeferAndDelete
  {
    WorkedExampleIds(customId);
  }

  /** In the worked example, user 333 acting through role 222 may delete. */
  lemma WorkedExampleRole(customId: string)
    requires customId == "AUTHOR_DELETE_BUTTON:111,222"
    ensures DeleteButtonCallback(Interaction(customId, 333, Some(Member([222])))) == DeferAndDelete
  {
    WorkedExampleIds(customId);
    assert [222][0] == 222;
  }

  /** In the worked example, user 333 with only role 999 gets the refusal. */
  lemma WorkedExampleStranger(customId: string)
    requires customId == "AUTHOR_DELETE_BUTTON:111,222"
    ensures DeleteButtonCallback(Interaction(customId, 333, Some(Member([999])))) == EphemeralReply(NotOwnerText)
  {
    WorkedExampleIds(customId);
  }
}
