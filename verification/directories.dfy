/** The host's world state the actor resolver reads: the actor directory,
    the scene directory and the scene currently shown on the canvas. A
    directory the host does not provide behaves as an empty map. */
module Directories {
  import opened Wrappers

  datatype Actor = Actor(id: string, name: string)

  /** A token document; an unlinked token may carry no actor. */
  datatype Token = Token(actor: Option<Actor>)

  datatype Scene = Scene(tokens: map<string, Token>)

  datatype World = World(
    actors: map<string, Actor>,
    scenes: map<string, Scene>,
    currentScene: Option<Scene>)
}
