/** The configuration records of the path-finding plan nodes. Each getter
    of the engine's node is the field of the same name; a field that no
    setter changes after construction is a `const`. */
module Algo {

  /** The engine's `size_t`. */
  type SizeT = x: int | 0 <= x < 0x1_0000_0000_0000_0000

  /** A reference to an upstream plan node. */
  datatype PlanNodeRef = PlanNodeRef(id: nat)

  /** How the two halves of a bidirectional search are combined. */
  datatype PathKind = BiBFS | BiDijkstra | Floyd | AllPaths

  /** Combines a forward and a backward search. */
  class ConjunctPath {
    const left: PlanNodeRef
    const right: PlanNodeRef
    const pathKind: PathKind
    const steps: SizeT
    var conditionalVar: string
    var noLoop: bool

    /** Stores the strategy and the step bound; the loop flag is left
        unset, so it holds an arbitrary value until `SetNoLoop`. */
    constructor (left: PlanNodeRef, right: PlanNodeRef, pathKind: PathKind, steps: SizeT)
      ensures this.left == left && this.right == right
      ensures this.pathKind == pathKind && this.steps == steps
      ensures conditionalVar == ""
    {
      this.left := left;
      this.right := right;
      this.pathKind := pathKind;
      this.steps := steps;
      conditionalVar := "";
      noLoop := *;
    }

    method SetConditionalVar(varName: string)
      modifies this`conditionalVar
      ensures conditionalVar == varName
      ensures noLoop == old(noLoop)
    {
      conditionalVar := varName;
    }

    method SetNoLoop(noLoop: bool)
      modifies this`noLoop
      ensures this.noLoop == noLoop
      ensures conditionalVar == old(conditionalVar)
    {
      this.noLoop := noLoop;
    }
  }

  /** Enumerates all paths from a source, optionally without loops. */
  class ProduceAllPaths {
    const input: PlanNodeRef
    var noLoop: bool

    constructor (input: PlanNodeRef)
      ensures this.input == input
      ensures noLoop == false
    {
      this.input := input;
      noLoop := false;
    }

    method SetNoLoop(noLoop: bool)
      modifies this`noLoop
      ensures this.noLoop == noLoop
    {
      this.noLoop := noLoop;
    }
  }

  /** Expands a k-hop subgraph; the four variable names carry the one more
      step protocol. The node has no setters. */
  class Subgraph {
    const input: PlanNodeRef
    const oneMoreStepInput: string
    const oneMoreStepOutput: string
    const isOneMoreStep: string
    const lastStep: string

    constructor (input: PlanNodeRef, oneMoreStepInput: string, oneMoreStepOutput: string,
                 isOneMoreStep: string, lastStep: string)
      ensures this.input == input
      ensures this.oneMoreStepInput == oneMoreStepInput && this.oneMoreStepOutput == oneMoreStepOutput
      ensures this.isOneMoreStep == isOneMoreStep && this.lastStep == lastStep
    {
      this.input := input;
      this.oneMoreStepInput := oneMoreStepInput;
      this.oneMoreStepOutput := oneMoreStepOutput;
      this.isOneMoreStep := isOneMoreStep;
      this.lastStep := lastStep;
    }
  }

  /** A planner configuring a conjunction node: whatever is set last is
      what the getters report, and the strategy and bound stay as made. */
  method ConfigureConjunctPath(left: PlanNodeRef, right: PlanNodeRef, kind: PathKind, steps: SizeT,
                               varName: string, noLoop: bool)
    returns (node: ConjunctPath)
    ensures node.pathKind == kind && node.steps == steps
    ensures node.conditionalVar == varName && node.noLoop == noLoop
  {
    node := new ConjunctPath(left, right, kind, steps);
    node.SetConditionalVar(varName);
    node.SetNoLoop(noLoop);
    assert node.conditionalVar == varName;
  }
}
