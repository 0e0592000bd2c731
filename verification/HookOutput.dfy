/** The Python client's reading of a daemon response: tests on the parsed value. */
module HookOutput {

  import opened Results
  import opened JsonText

  const CONTINUE := Codes("continue")
  const HOOK_SPECIFIC := Codes("hookSpecificOutput")
  const HOOK_EVENT := Codes("hookEventName")
  const PERMISSION := Codes("permissionDecision")
  const OK_KEY := Codes("ok")
  const OUTPUT := Codes("output")
  const PRE_TOOL_USE := Codes("PreToolUse")

  predicate IsValidOutput(payload: Json) {
    payload.Obj? &&
    var cont := Get(payload.members, CONTINUE);
    if cont.Some? && cont.value.Bool? then true else
    var hook := Get(payload.members, HOOK_SPECIFIC);
    hook.Some? && hook.value.Obj? &&
    Get(hook.value.members, HOOK_EVENT) == Some(Str(PRE_TOOL_USE)) &&
    var decision := Get(hook.value.members, PERMISSION);
    decision.None? || decision.value.Str?
  }

  /** The daemon's answer is either the output itself or an envelope around it. */
  function EnvelopeBody(response: Json): Option<Json> {
    if !response.Obj? then None
    else match Get(response.members, OK_KEY)
         case None => Some(response)
         case Some(ok) => if ok == Bool(true) then Get(response.members, OUTPUT) else None
  }

  function ExtractOutput(response: Json): (r: Option<Json>) {
    var output := EnvelopeBody(response);
    if output.Some? && IsValidOutput(output.value) then output else None
  }

  /** The one shape on which the two clients part: `continue` there, but not a Boolean. */
  predicate ContinueAbsentOrBoolean(output: Json) {
    output.Obj? &&
    var cont := Get(output.members, CONTINUE);
    cont.None? || cont.value.Bool?
  }
}
