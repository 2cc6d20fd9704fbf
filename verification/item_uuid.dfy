/** Extracts the owning actor's id from an item uuid of the shape
    `Actor.<actorId>.Item.<itemId>`, as the regular expression
    `^Actor\.([^.]+)\.Item\.` does (scripts/gwf-d12-rue.js, `actorIdFromItemUuid`). */
module ItemUuid {
  import opened Wrappers
  import opened Chat

  const ActorPrefix: string := "Actor."
  const ItemInfix: string := ".Item."

  /** `uuid` starts with `Actor.` + id + `.Item.`, where id is a non-empty
      run of characters other than `.`. */
  predicate IsItemUuidOf(uuid: string, id: string) {
    var head := ActorPrefix + id + ItemInfix;
    && |id| > 0
    && '.' !in id
    && |head| <= |uuid|
    && uuid[..|head|] == head
  }

  /** Index of the first `.` in s, or |s| when there is none: where the
      greedy group `[^.]+` stops. */
  function DotIndex(s: string): (k: nat)
    ensures k <= |s|
    ensures '.' !in s[..k]
    ensures k < |s| ==> s[k] == '.'
  {
    if |s| == 0 then 0
    else if s[0] == '.' then 0
    else 1 + DotIndex(s[1..])
  }

  /** The capture group of a successful match, or `None` when the regular
      expression does not match. */
  function ActorIdFromUuid(uuid: string): (r: Option<string>)
    ensures r.Some? ==> IsItemUuidOf(uuid, r.value)
    ensures forall id :: IsItemUuidOf(uuid, id) ==> r == Some(id)
  {
    FitIsWhatTheScanFinds(uuid);
    if |uuid| < |ActorPrefix| || uuid[..|ActorPrefix|] != ActorPrefix then None
    else
      var rest := uuid[|ActorPrefix|..];
      var k := DotIndex(rest);
      if k == 0 || |rest| - k < |ItemInfix| || rest[k..k + |ItemInfix|] != ItemInfix then None
      else
        var id := rest[..k];
        assert uuid[..|ActorPrefix + id + ItemInfix|] == ActorPrefix + id + ItemInfix by {
          assert uuid == ActorPrefix + rest;
          assert rest[..k + |ItemInfix|] == id + ItemInfix;
        }
        Some(id)
  }

  /** Any id that fits the uuid is the one the left-to-right scan finds:
      the prefix is present, the id ends at the first `.` and `.Item.`
      follows it. */
  lemma FitIsWhatTheScanFinds(uuid: string)
    ensures forall id {:trigger IsItemUuidOf(uuid, id)} :: IsItemUuidOf(uuid, id) ==>
              var rest := uuid[|ActorPrefix|..];
              && |ActorPrefix| <= |uuid|
              && uuid[..|ActorPrefix|] == ActorPrefix
              && DotIndex(rest) == |id|
              && |id| + |ItemInfix| <= |rest|
              && rest[|id|..|id| + |ItemInfix|] == ItemInfix
              && rest[..|id|] == id
  {
    forall id | IsItemUuidOf(uuid, id)
      ensures |ActorPrefix| <= |uuid|
      ensures uuid[..|ActorPrefix|] == ActorPrefix
      ensures DotIndex(uuid[|ActorPrefix|..]) == |id|
      ensures |id| + |ItemInfix| <= |uuid[|ActorPrefix|..]|
      ensures uuid[|ActorPrefix|..][|id|..|id| + |ItemInfix|] == ItemInfix
      ensures uuid[|ActorPrefix|..][..|id|] == id
    {
      var head := ActorPrefix + id + ItemInfix;
      var rest := uuid[|ActorPrefix|..];
      IdEndsAtFirstDot(uuid, id);
      assert uuid[..|ActorPrefix|] == head[..|ActorPrefix|];
      assert rest[|id|..|id| + |ItemInfix|] == ItemInfix by {
        forall i | 0 <= i < |ItemInfix|
          ensures rest[|id| + i] == ItemInfix[i]
        {
          assert rest[|id| + i] == uuid[|ActorPrefix| + |id| + i] == head[|ActorPrefix| + |id| + i];
        }
      }
    }
  }

  /** At most one id fits a given uuid: the id must end at the first `.`
      after the prefix. */
  lemma UniqueActorId(uuid: string)
    ensures forall id, id' :: IsItemUuidOf(uuid, id) && IsItemUuidOf(uuid, id') ==> id == id'
  {
    forall id, id' | IsItemUuidOf(uuid, id) && IsItemUuidOf(uuid, id')
      ensures id == id'
    {
      IdEndsAtFirstDot(uuid, id);
      IdEndsAtFirstDot(uuid, id');
    }
  }

  /** A fitting id is exactly the text between the prefix and the first `.`. */
  lemma IdEndsAtFirstDot(uuid: string, id: string)
    requires IsItemUuidOf(uuid, id)
    ensures |ActorPrefix| <= |uuid|
    ensures id == uuid[|ActorPrefix|..][..DotIndex(uuid[|ActorPrefix|..])]
  {
    var head := ActorPrefix + id + ItemInfix;
    var rest := uuid[|ActorPrefix|..];
    assert uuid[..|ActorPrefix|] == head[..|ActorPrefix|];
    assert rest[..|id|] == id by {
      forall i | 0 <= i < |id| ensures rest[i] == id[i] {
        assert rest[i] == uuid[|ActorPrefix| + i] == head[|ActorPrefix| + i];
      }
    }
    assert rest[|id|] == '.' by {
      assert rest[|id|] == uuid[|ActorPrefix| + |id|] == head[|ActorPrefix| + |id|];
    }
    FirstDotAt(rest, |id|);
  }

  lemma {:induction false} FirstDotAt(s: string, n: nat)
    requires n < |s| && s[n] == '.' && '.' !in s[..n]
    ensures DotIndex(s) == n
  {
    if n > 0 {
      assert s[0] == s[..n][0];
      assert s[1..][..n - 1] == s[..n][1..];
      FirstDotAt(s[1..], n - 1);
    }
  }

  /** The uuid of the item a message was made from, if it names one. */
  function ItemUuidOf(m: Message): Option<string> {
    match Dnd5eOf(m)
    case None => None
    case Some(d) =>
      match d.item
      case None => None
      case Some(it) => it.uuid
  }

  /** `actorIdFromItemUuid(message)`: an absent or empty uuid gives nothing;
      otherwise the regular expression decides. */
  function ItemActorId(m: Message): (r: Option<string>)
    ensures r.Some? <==> ItemUuidOf(m).Some? && exists id :: IsItemUuidOf(ItemUuidOf(m).value, id)
    ensures r.Some? ==> IsItemUuidOf(ItemUuidOf(m).value, r.value)
  {
    match ItemUuidOf(m)
    case None => None
    case Some(uuid) => if uuid == "" then None else ActorIdFromUuid(uuid)
  }

  /** Building a uuid from an actor id and any item part, then parsing it,
      gives the actor id back. */
  lemma BuildThenParse(id: string, itemPart: string)
    requires |id| > 0 && '.' !in id
    ensures ActorIdFromUuid(ActorPrefix + id + ItemInfix + itemPart) == Some(id)
  {
    var head := ActorPrefix + id + ItemInfix;
    assert (head + itemPart)[..|head|] == head;
    assert IsItemUuidOf(head + itemPart, id);
  }

  /** The example from the script's comment,
      `Actor.Nrh2UoJky0POpiu9.Item.fy0oagBB9SLops4F`. */
  lemma ExampleUuid(id: string, itemPart: string)
    requires id == "Nrh2UoJky0POpiu9" && itemPart == "fy0oagBB9SLops4F"
    ensures ActorIdFromUuid(ActorPrefix + id + ItemInfix + itemPart) == Some("Nrh2UoJky0POpiu9")
  {
    assert '.' !in id;
    BuildThenParse(id, itemPart);
  }

  /** An empty actor id is rejected. */
  lemma EmptyIdRejected()
    ensures ActorIdFromUuid("Actor..Item.x") == None
  {
    FitIsWhatTheScanFinds("Actor..Item.x");
    FirstDotAt(".Item.x", 0);
  }

  /** A uuid whose id is followed by another collection than `Item` is
      rejected. */
  lemma OtherCollectionRejected()
    ensures ActorIdFromUuid("Actor.abc.Token.x") == None
  {
    FitIsWhatTheScanFinds("Actor.abc.Token.x");
    FirstDotAt("abc.Token.x", 3);
    assert "abc.Token.x"[3..9] == ".Token";
  }

  /** The pattern is anchored: an `Actor.` that does not start the uuid is
      not found. */
  lemma PrefixMustStartUuid()
    ensures ActorIdFromUuid("Scene.s.Actor.abc.Item.x") == None
  {
    FitIsWhatTheScanFinds("Scene.s.Actor.abc.Item.x");
    assert "Scene.s.Actor.abc.Item.x"[..6] == "Scene.";
  }
}
