/**
 * Derivation of the nicknames shown as typing, from the latest typing
 * presence and the latest roster. The local user is not excluded and
 * duplicate connection ids are not removed.
 */
module Presence {
  import opened Wrappers
  import opened Domain

  /** The roster entry `u` has connection id `id` (`u?.socketConnectionId === id`). */
  predicate HasId(u: User, id: string) {
    u.socketConnectionId == Some(id)
  }

  /** Index of the first roster entry with connection id `id`, scanning as `Array.prototype.find` does. */
  function FirstMatch(roster: seq<User>, id: string): (r: Option<nat>)
    ensures r.Some? ==> r.value < |roster| && HasId(roster[r.value], id)
    ensures r.Some? ==> forall j :: 0 <= j < r.value ==> !HasId(roster[j], id)
    ensures r.None? ==> forall j :: 0 <= j < |roster| ==> !HasId(roster[j], id)
  {
    if |roster| == 0 then None
    else if HasId(roster[0], id) then Some(0)
    else
      match FirstMatch(roster[1..], id)
      case None => None
      case Some(k) => Some(k + 1)
  }

  /** `matchedUser?.userSettings?.userNickname` for the first user matching `id`. */
  function NicknameFor(roster: seq<User>, id: string): Option<string> {
    match FirstMatch(roster, id)
    case None => None
    case Some(k) =>
      match roster[k].userSettings
      case None => None
      case Some(settings) => settings.userNickname
  }

  /** The shown contribution of one typing id: its nickname when that is truthy, else nothing. */
  function NameOf(roster: seq<User>, id: string): seq<string> {
    var n := NicknameFor(roster, id);
    if Truthy(n) then [n.value] else []
  }

  /** `usersTyping.map(nickname).filter(Boolean)`. */
  function TypingNicknames(roster: seq<User>, ids: seq<string>): (names: seq<string>)
    ensures |names| <= |ids|
    ensures forall k :: 0 <= k < |names| ==> names[k] != ""
  {
    if |ids| == 0 then [] else NameOf(roster, ids[0]) + TypingNicknames(roster, ids[1..])
  }

  /**
   * The typing list the client stores: `Some([])` unless someone is typing
   * and the roster is non-empty; `None` (the client's `undefined`) when
   * `usersTyping` is then absent.
   */
  function TypingNames(p: TypingPresence, roster: seq<User>): (r: Option<seq<string>>)
    ensures p.anyoneTyping != Some(true) || |roster| == 0 ==> r == Some([])
    ensures r.None? <==> p.anyoneTyping == Some(true) && |roster| > 0 && p.usersTyping.None?
    ensures r.Some? && p.usersTyping.Some? ==> |r.value| <= |p.usersTyping.value|
    ensures r.Some? ==> forall k :: 0 <= k < |r.value| ==> Truthy(Some(r.value[k]))
    ensures p.anyoneTyping == Some(true) && |roster| > 0 && p.usersTyping.Some? ==>
      r == Some(TypingNicknames(roster, p.usersTyping.value))
  {
    if p.anyoneTyping == Some(true) && |roster| > 0 then
      match p.usersTyping
      case None => None
      case Some(ids) => Some(TypingNicknames(roster, ids))
    else
      Some([])
  }

  /** The derivation is a map-then-filter: it distributes over concatenation, so input order is kept. */
  lemma {:induction false} TypingNicknamesAppend(roster: seq<User>, a: seq<string>, b: seq<string>)
    ensures TypingNicknames(roster, a + b) == TypingNicknames(roster, a) + TypingNicknames(roster, b)
  {
    if |a| == 0 {
      assert a + b == b;
    } else {
      assert (a + b)[0] == a[0];
      assert (a + b)[1..] == a[1..] + b;
      TypingNicknamesAppend(roster, a[1..], b);
    }
  }

  /** A name is shown exactly when some typing id's first roster match carries it as a non-empty nickname. */
  lemma {:induction false} TypingNicknamesMembership(roster: seq<User>, ids: seq<string>, name: string)
    ensures name in TypingNicknames(roster, ids) <==>
      name != "" && exists i :: 0 <= i < |ids| && NicknameFor(roster, ids[i]) == Some(name)
  {
    if |ids| > 0 {
      TypingNicknamesMembership(roster, ids[1..], name);
      if name in TypingNicknames(roster, ids[1..]) {
        var i :| 0 <= i < |ids[1..]| && NicknameFor(roster, ids[1..][i]) == Some(name);
        assert NicknameFor(roster, ids[i + 1]) == Some(name);
      }
      if exists i :: 0 <= i < |ids| && NicknameFor(roster, ids[i]) == Some(name) {
        var i :| 0 <= i < |ids| && NicknameFor(roster, ids[i]) == Some(name);
        if i > 0 {
          assert ids[1..][i - 1] == ids[i];
        }
      }
    }
  }

  /** An id without a truthy nickname, unmatched ones included, is dropped and nothing else changes. */
  lemma TypingNicknamesOmits(roster: seq<User>, before: seq<string>, id: string, after: seq<string>)
    requires !Truthy(NicknameFor(roster, id))
    ensures TypingNicknames(roster, before + [id] + after) == TypingNicknames(roster, before + after)
  {
    TypingNicknamesAppend(roster, before + [id], after);
    TypingNicknamesAppend(roster, before, [id]);
    TypingNicknamesAppend(roster, before, after);
  }

  /** A repeated id is shown once per occurrence: duplicates are not removed. */
  lemma TypingNicknamesKeepsDuplicates(roster: seq<User>, id: string, ids: seq<string>)
    requires Truthy(NicknameFor(roster, id))
    ensures TypingNicknames(roster, [id, id] + ids)
      == [NicknameFor(roster, id).value, NicknameFor(roster, id).value] + TypingNicknames(roster, ids)
  {
    TypingNicknamesAppend(roster, [id], [id] + ids);
    TypingNicknamesAppend(roster, [id], ids);
    assert [id, id] + ids == [id] + ([id] + ids);
  }

  /** Roster {A: "alice", B: "bob"} with typing ids [B, A] shows ["bob", "alice"]: input order, not roster order. */
  lemma InputOrderExample()
    ensures TypingNames(
      TypingPresence(Some(true), Some(["B", "A"])),
      [User(Some("A"), Some(UserSettings(Some("alice")))), User(Some("B"), Some(UserSettings(Some("bob"))))])
      == Some(["bob", "alice"])
  {
    var alice := User(Some("A"), Some(UserSettings(Some("alice"))));
    var bob := User(Some("B"), Some(UserSettings(Some("bob"))));
    var roster := [alice, bob];
    assert FirstMatch(roster, "B") == Some(1) by {
      assert !HasId(alice, "B");
      assert FirstMatch(roster[1..], "B") == Some(0);
    }
    assert FirstMatch(roster, "A") == Some(0);
    assert NameOf(roster, "B") == ["bob"];
    assert NameOf(roster, "A") == ["alice"];
    assert ["B"][1..] == [] && ["A"][1..] == [];
    assert TypingNicknames(roster, ["B"]) == ["bob"];
    assert TypingNicknames(roster, ["A"]) == ["alice"];
    TypingNicknamesAppend(roster, ["B"], ["A"]);
    assert ["B", "A"] == ["B"] + ["A"];
    assert TypingNicknames(roster, ["B", "A"]) == ["bob", "alice"];
  }
}
