/** Finds the actor a message belongs to (scripts/gwf-d12-rue.js,
    `getActorForMessage`): the item uuid's actor id first, then the
    speaker's actor id, then the speaker's token in the speaker's scene or,
    failing that scene, the scene on the canvas. Each of the first two steps
    returns as soon as its key is present, whether or not the lookup
    succeeds. */
module ActorResolver {
  import opened Wrappers
  import opened Chat
  import opened Directories
  import opened ItemUuid

  /** The speaker's actor id when it is truthy: present and non-empty. */
  function SpeakerActorId(m: Message): Option<string> {
    match m.speaker
    case None => None
    case Some(s) =>
      match s.actor
      case None => None
      case Some(a) => if a == "" then None else Some(a)
  }

  function SpeakerScene(m: Message): Option<string> {
    match m.speaker
    case None => None
    case Some(s) => s.scene
  }

  function SpeakerToken(m: Message): Option<string> {
    match m.speaker
    case None => None
    case Some(s) => s.token
  }

  /** The scene the speaker names when the world knows it, otherwise the
      scene on the canvas, if any. */
  function SceneFor(m: Message, w: World): Option<Scene> {
    match SpeakerScene(m)
    case Some(sid) => if sid in w.scenes then Some(w.scenes[sid]) else w.currentScene
    case None => w.currentScene
  }

  /** The actor of the speaker's token within that scene, if every link of
      the chain is present. */
  function TokenActor(m: Message, w: World): Option<Actor> {
    match SceneFor(m, w)
    case None => None
    case Some(scene) =>
      match SpeakerToken(m)
      case None => None
      case Some(tid) => if tid in scene.tokens then scene.tokens[tid].actor else None
  }

  function ResolveActor(m: Message, w: World): (r: Option<Actor>)
    // an item-linked message is resolved through the actor directory alone
    ensures ItemActorId(m).Some? ==>
              && (r.Some? <==> ItemActorId(m).value in w.actors)
              && (r.Some? ==> r.value == w.actors[ItemActorId(m).value])
    // otherwise a speaker actor id is resolved through the actor directory alone
    ensures ItemActorId(m).None? && SpeakerActorId(m).Some? ==>
              && (r.Some? <==> SpeakerActorId(m).value in w.actors)
              && (r.Some? ==> r.value == w.actors[SpeakerActorId(m).value])
    // otherwise the actor comes from the speaker's token in the chosen scene,
    // exactly when that token is there and carries one
    ensures ItemActorId(m).None? && SpeakerActorId(m).None? ==>
              (r.Some? <==> exists scene, tid :: SceneFor(m, w) == Some(scene) && SpeakerToken(m) == Some(tid)
                                                && tid in scene.tokens && scene.tokens[tid].actor.Some?)
    ensures ItemActorId(m).None? && SpeakerActorId(m).None? && r.Some? ==>
              exists scene, tid :: SceneFor(m, w) == Some(scene) && SpeakerToken(m) == Some(tid)
                                   && tid in scene.tokens && scene.tokens[tid].actor == r
  {
    match ItemActorId(m)
    case Some(id) => Lookup(w.actors, id)
    case None =>
      match SpeakerActorId(m)
      case Some(id) => Lookup(w.actors, id)
      case None => TokenActor(m, w)
  }

  /** With neither an item link nor a speaker actor id, the actor of the
      speaker's token in the chosen scene is the result. */
  lemma TokenActorIsReturned(m: Message, w: World, scene: Scene, tid: string, a: Actor)
    requires ItemActorId(m).None? && SpeakerActorId(m).None?
    requires SceneFor(m, w) == Some(scene) && SpeakerToken(m) == Some(tid)
    requires tid in scene.tokens && scene.tokens[tid].actor == Some(a)
    ensures ResolveActor(m, w) == Some(a)
  {
  }

  /** A present item link is final: even when the actor directory has no
      entry for it, nothing falls through to the speaker or the token. */
  lemma ItemLinkIsFinal(m: Message, w: World)
    requires ItemActorId(m).Some? && ItemActorId(m).value !in w.actors
    ensures ResolveActor(m, w) == None
  {
  }

  /** With an item link present, the speaker block, the scene directory and
      the canvas scene are never consulted. */
  lemma ItemLinkIgnoresFallbacks(m: Message, w: World, speaker: Option<Speaker>,
                                 scenes: map<string, Scene>, current: Option<Scene>)
    requires ItemActorId(m).Some?
    ensures ResolveActor(m.(speaker := speaker), w.(scenes := scenes, currentScene := current))
            == ResolveActor(m, w)
  {
    assert ItemActorId(m.(speaker := speaker)) == ItemActorId(m);
  }

  /** With no item link but a speaker actor id, the scene directory and the
      canvas scene are never consulted. */
  lemma SpeakerLinkIgnoresScenes(m: Message, w: World, scenes: map<string, Scene>, current: Option<Scene>)
    requires ItemActorId(m).None? && SpeakerActorId(m).Some?
    ensures ResolveActor(m, w.(scenes := scenes, currentScene := current)) == ResolveActor(m, w)
  {
  }

  /** A speaker actor id that is present but unknown is final too. */
  lemma SpeakerLinkIsFinal(m: Message, w: World)
    requires ItemActorId(m).None? && SpeakerActorId(m).Some? && SpeakerActorId(m).value !in w.actors
    ensures ResolveActor(m, w) == None
  {
  }

  /** An empty speaker actor id is falsy and falls through to the token. */
  lemma EmptySpeakerActorFallsThrough(m: Message, w: World)
    requires ItemActorId(m).None?
    requires m.speaker.Some? && m.speaker.value.actor == Some("")
    ensures ResolveActor(m, w) == TokenActor(m, w)
  {
  }

  /** An explicit scene id that the scene directory does not know falls back
      to the canvas scene. */
  lemma UnknownSceneUsesCanvas(m: Message, w: World)
    requires SpeakerScene(m).Some? && SpeakerScene(m).value !in w.scenes
    ensures SceneFor(m, w) == w.currentScene
  {
  }

  /** A message whose item uuid is `Actor.ABC123.Item.XYZ789` resolves to
      actor `ABC123` whatever its speaker says. */
  lemma ItemUuidScenario(m: Message, w: World, uuid: string, itemPart: string, a: Actor)
    requires itemPart == "XYZ789"
    requires uuid == ActorPrefix + "ABC123" + ItemInfix + itemPart
    requires m.flags == Some(MessageFlags(Some(Dnd5eFlags(Some("roll"), None, Some(ItemFlags(Some(uuid)))))))
    requires w.actors == map["ABC123" := a]
    ensures ResolveActor(m, w) == Some(a)
  {
    var id := "ABC123";
    assert '.' !in id;
    BuildThenParse(id, itemPart);
  }

  /** A message with no item reference and speaker actor `DEF456` resolves
      to actor `DEF456`. */
  lemma SpeakerScenario(m: Message, w: World, a: Actor)
    requires m.flags == Some(MessageFlags(Some(Dnd5eFlags(Some("roll"), None, None))))
    requires m.speaker.Some? && m.speaker.value.actor == Some("DEF456")
    requires w.actors == map["DEF456" := a]
    ensures ResolveActor(m, w) == Some(a)
  {
  }
}
