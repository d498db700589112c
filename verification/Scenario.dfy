/** Scenarios: trees of steps. */
module Scenarios {
  import opened Options
  import opened Requests

  datatype CompareOp = Eq | Ne | Lt | Gt | Lte | Gte | Contains | Matches | Exists | Empty

  datatype Condition =
    | All(all: seq<Condition>)
    | Any(any: seq<Condition>)
    | Compare(left: string, op: CompareOp, right: Option<string>)

  /** One extraction: the variable it writes, and its rule. */
  datatype Extract = Extract(name: string, rule: string)

  /** `statuses` are the asserted status codes; `think` tells whether the step has its own think time. */
  datatype HttpStep = HttpStep(id: string, request: Request, statuses: seq<nat>, extract: seq<Extract>, think: bool)

  datatype Elif = Elif(cond: Condition, thn: seq<Step>)

  datatype Branch = Branch(name: string, steps: seq<Step>)

  datatype Step =
    | Http(http: HttpStep)
    | Loop(id: string, repeat: nat, body: seq<Step>)
    | If(id: string, cond: Condition, thn: seq<Step>, elifs: seq<Elif>, els: seq<Step>)
    | Parallel(id: string, branches: seq<Branch>)

  function ExtractNames(extract: seq<Extract>): seq<string> {
    if extract == [] then [] else [extract[0].name] + ExtractNames(extract[1..])
  }

  /** The variables a branch exposes: what its requests extract, in loops and in every arm of a
      condition, but not inside a nested parallel step. */
  function OutputNames(steps: seq<Step>): seq<string>
    decreases steps
  {
    if steps == [] then []
    else (match steps[0]
          case Http(h) => ExtractNames(h.extract)
          case Loop(_, _, body) => OutputNames(body)
          case If(_, _, thn, elifs, els) => OutputNames(thn) + ElifNames(elifs) + OutputNames(els)
          case Parallel(_, _) => [])
         + OutputNames(steps[1..])
  }

  function ElifNames(elifs: seq<Elif>): seq<string>
    decreases elifs
  {
    if elifs == [] then [] else OutputNames(elifs[0].thn) + ElifNames(elifs[1..])
  }

  /** Every request step of a tree, wherever it is nested. */
  function HttpSteps(steps: seq<Step>): seq<HttpStep>
    decreases steps
  {
    if steps == [] then []
    else (match steps[0]
          case Http(h) => [h]
          case Loop(_, _, body) => HttpSteps(body)
          case If(_, _, thn, elifs, els) => HttpSteps(thn) + ElifHttpSteps(elifs) + HttpSteps(els)
          case Parallel(_, branches) => BranchHttpSteps(branches))
         + HttpSteps(steps[1..])
  }

  function ElifHttpSteps(elifs: seq<Elif>): seq<HttpStep>
    decreases elifs
  {
    if elifs == [] then [] else HttpSteps(elifs[0].thn) + ElifHttpSteps(elifs[1..])
  }

  function BranchHttpSteps(branches: seq<Branch>): seq<HttpStep>
    decreases branches
  {
    if branches == [] then [] else HttpSteps(branches[0].steps) + BranchHttpSteps(branches[1..])
  }
}
