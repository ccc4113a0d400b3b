/**
 * The types the server and the avatar component share: viseme cues, chat
 * history messages, the five server-to-client messages, and the table that
 * turns a Rhubarb mouth shape into ARKit blend-shape weights.
 */
module Shared {

  /** One mouth shape held for `duration` seconds from `time`. */
  datatype VisemeCue = VisemeCue(time: real, shape: string, weight: real, duration: real)

  datatype Role = User | Assistant

  /** One entry of the chat history. */
  datatype Message = Message(role: Role, content: string)

  /**
   * The messages the server sends as JSON text frames. The audio of an
   * `assistant.audio` message travels in the binary frame that follows it,
   * so it is not a field here.
   */
  datatype ServerMessage =
    | AssistantAudio(visemes: seq<VisemeCue>, sentenceIndex: nat, isFinal: bool)
    | AssistantStart
    | AssistantDone
    | AssistantEmpty
    | Error(message: string, recoverable: bool)

  /** Blend-shape name to weight. */
  type ShapeTable = map<string, real>

  /** The Rhubarb mouth shapes: X is rest, A to H are the speaking shapes. */
  const RhubarbShapes: set<string> := {"X", "A", "B", "C", "D", "E", "F", "G", "H"}

  const RhubarbToArkit: map<string, ShapeTable> := map[
    "X" := map[],
    "A" := map["jawOpen" := 0.0, "mouthClose" := 1.0],
    "B" := map["jawOpen" := 0.2, "mouthClose" := 0.0],
    "C" := map["jawOpen" := 0.5, "mouthFunnel" := 0.3, "mouthOpen" := 0.7],
    "D" := map["jawOpen" := 0.8, "mouthOpen" := 1.0],
    "E" := map["jawOpen" := 0.4, "mouthPucker" := 0.6],
    "F" := map["jawOpen" := 0.2, "mouthPucker" := 0.9],
    "G" := map["jawOpen" := 0.1, "mouthFunnel" := 0.5, "mouthClose" := 0.3],
    "H" := map["jawOpen" := 0.3, "mouthOpen" := 0.4]
  ]

  predicate IsWeight(x: real) {
    0.0 <= x <= 1.0
  }

  predicate WeightsInRange(w: ShapeTable) {
    forall k :: k in w ==> IsWeight(w[k])
  }

  /** The table has an entry for exactly the nine Rhubarb shapes. */
  lemma TableKeys()
    ensures RhubarbToArkit.Keys == RhubarbShapes
  {
  }

  /** The rest shape sets no blend shape. */
  lemma RestShapeIsEmpty()
    ensures RhubarbToArkit["X"] == map[]
  {
  }

  /** The wide-open shape D opens the jaw to 0.8 and the mouth fully. */
  lemma OpenShape()
    ensures RhubarbToArkit["D"] == map["jawOpen" := 0.8, "mouthOpen" := 1.0]
  {
  }

  /** Every weight of every shape lies in [0, 1]. */
  lemma TableWeightsInRange()
    ensures forall s :: s in RhubarbToArkit ==> WeightsInRange(RhubarbToArkit[s])
  {
    TableKeys();
    forall s | s in RhubarbToArkit ensures WeightsInRange(RhubarbToArkit[s]) {
      if s == "X" || s == "A" || s == "B" || s == "C" || s == "D" {
        assert WeightsInRange(RhubarbToArkit[s]);
      } else {
        assert s == "E" || s == "F" || s == "G" || s == "H";
      }
    }
  }
}
