/** Decisions (services/gateway/internal/decision/decision.go). */
module Decisions {
  import opened Common

  /** Action names; `OtherAction` is any name the code does not know. */
  datatype Action = Allow | Count | Block | Challenge | RateLimited | OtherAction(name: string)

  datatype Mode = CountMode | BlockMode | OtherMode(name: string)

  datatype RateLimitInfo = RateLimitInfo(limit: int, remaining: int, resetAt: int, ruleId: string, action: Action)

  datatype Decision = Decision(
    action: Action,
    reason: string,
    matchedRuleId: string,
    matchedRuleName: string,
    ruleGroup: string,
    tags: seq<string>,
    anomalyScore: int,
    statusCode: int,
    rateLimit: Option<RateLimitInfo>)
  {
    predicate WouldBlock() {
      action == Block || action == RateLimited || action == Challenge
    }
  }

  function Plain(action: Action, reason: string, ruleId: string, statusCode: int): Decision {
    Decision(action, reason, ruleId, "", "", [], 0, statusCode, None)
  }

  function AllowDecision(): Decision {
    Plain(Allow, "", "", 0)
  }

  function BlockDecision(reason: string, ruleId: string): Decision {
    Plain(Block, reason, ruleId, 403)
  }

  function EnforcedAction(mode: Mode, d: Decision): Action {
    if mode == CountMode && d.WouldBlock() then Count else d.action
  }
}
