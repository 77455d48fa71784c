/**
 * The part of the browser document the editor reads and writes: nodes looked
 * up by their `id` attribute. Only what the store observes is kept: whether a
 * node exists, whether it is a video element, and a video's playback position
 * and play/pause state.
 */
module Dom {

  type DomId = string

  datatype Node =
    | VideoNode(currentTime: real, playing: bool)
    | ImageNode
    | OtherNode

  /** The document, updated in place when a video is seeked, played or paused. */
  class Document {
    var nodes: map<DomId, Node>

    constructor (nodes: map<DomId, Node>)
      ensures this.nodes == nodes
    {
      this.nodes := nodes;
    }
  }
}
