/**
 * The topic form (src/components/QuoteInput.tsx): the prompt text, the
 * submit guard that ignores blank prompts, and the conditions that disable
 * the text area and the button.
 */
module QuoteInputState {
  import opened Types
  import opened JsString

  class QuoteInput {
    var prompt: string

    /** The form starts empty. */
    constructor ()
      ensures prompt == ""
    {
      prompt := "";
    }

    /** The text area's change handler overwrites the prompt. */
    method ChangePrompt(text: string)
      modifies this
      ensures prompt == text
    {
      prompt := text;
    }

    /** `handleSubmit`: asks for a generation with the prompt exactly as
        typed (not trimmed), and only when it is not blank. */
    method HandleSubmit() returns (call: Option<string>)
      ensures call.Some? <==> !Blank(prompt)
      ensures call.Some? ==> call.value == prompt
    {
      if Trim(prompt) != [] {
        call := Some(prompt);
      } else {
        call := None;
      }
    }

    /** The submit button's `disabled`: while loading, or while the prompt
        is blank. */
    function SubmitDisabled(isLoading: bool): (disabled: bool)
      reads this
      ensures disabled <==> isLoading || Blank(prompt)
    {
      isLoading || Trim(prompt) == []
    }

    /** The text area's `disabled`, `isLoading`: whenever it is locked the
        button is locked too, and once loading ends the button stays locked
        only for a blank prompt. */
    function TextAreaDisabled(isLoading: bool): (disabled: bool)
      reads this
      ensures isLoading ==> disabled
      ensures !isLoading ==> !disabled
      ensures disabled ==> SubmitDisabled(isLoading)
      ensures !disabled ==> (SubmitDisabled(isLoading) <==> Blank(prompt))
    {
      isLoading
    }
  }
}
