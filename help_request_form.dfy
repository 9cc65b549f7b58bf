/** The submission form (frontend/components/HelpRequestForm.tsx): a blank location
    is refused, an Emergency goes through a confirmation step, anything else is
    created at once, and a submission resets the form. */
module HelpRequestForm {
  import opened Types
  import opened Engine
  import Strings

  /** What pressing the submit button led to. */
  datatype SubmitOutcome = LocationRequired | AwaitingConfirmation | Submitted(result: CreateResult)

  /** The data `processSubmission` hands to `createRequest`: every field as entered. */
  function Submission(category: Category, priority: Priority, location: string, description: string): RequestData
  {
    RequestData(category, Some(priority), Some(location), Some(description))
  }

  /** A location that passes the form's check is stored exactly as typed, untrimmed,
      and the request gets the priority and category chosen in the form. */
  lemma SubmittedFieldsKept(user: User, category: Category, priority: Priority, location: string,
                            description: string, id: string, now: int)
    requires !Strings.IsBlank(location)
    ensures var r := Create(Some(user), Submission(category, priority, location, description), id, now);
      r.Registered? ==>
        r.request.location == location && r.request.description == description &&
        r.request.priority == priority && r.request.category == category
  {
  }

  /** The form's own state. */
  class Form {
    var category: Category
    var priority: Priority
    var location: string
    var description: string
    var showConfirm: bool

    constructor ()
      ensures category == Medical && priority == Normal && location == [] && description == [] && !showConfirm
    {
      category := Medical;
      priority := Normal;
      location := [];
      description := [];
      showConfirm := false;
    }

    /** The category select. */
    method ChooseCategory(c: Category)
      modifies this`category
      ensures category == c
    {
      category := c;
    }

    /** The urgency buttons. */
    method ChoosePriority(p: Priority)
      modifies this`priority
      ensures priority == p
    {
      priority := p;
    }

    /** The location input. */
    method EnterLocation(text: string)
      modifies this`location
      ensures location == text
    {
      location := text;
    }

    /** The description text area. */
    method EnterDescription(text: string)
      modifies this`description
      ensures description == text
    {
      description := text;
    }

    /** `processSubmission`, also the CONFIRM ALERT button: creates the request from
        the fields as entered, then resets the form whatever the engine answered. */
    method ProcessSubmission(app: AppState, id: string, now: int) returns (r: CreateResult)
      requires app.Valid()
      modifies this`description, this`location, this`priority, this`showConfirm, app
      ensures app.Valid()
      ensures r == Create(old(app.user), Submission(old(category), old(priority), old(location), old(description)), id, now)
      ensures r.Registered? ==>
        app.requests == [r.request] + old(app.requests) &&
        app.user == Some(old(app.user).value.(lastRequestTime := Some(now)))
      ensures !r.Registered? ==> app.requests == old(app.requests) && app.user == old(app.user)
      ensures description == [] && location == [] && priority == Normal && !showConfirm
      ensures category == old(category)
    {
      r := app.CreateRequest(Submission(category, priority, location, description), id, now);
      description := [];
      location := [];
      priority := Normal;
      showConfirm := false;
    }

    /** `handleSubmit`: a blank location is refused with nothing changed; an
        Emergency only opens the confirmation step; anything else is submitted. */
    method HandleSubmit(app: AppState, id: string, now: int) returns (outcome: SubmitOutcome)
      requires app.Valid()
      modifies this`description, this`location, this`priority, this`showConfirm, app
      ensures app.Valid()
      ensures category == old(category)
      ensures Strings.IsBlank(old(location)) ==>
        outcome == LocationRequired &&
        app.requests == old(app.requests) && app.user == old(app.user) &&
        location == old(location) && description == old(description) &&
        priority == old(priority) && showConfirm == old(showConfirm)
      ensures !Strings.IsBlank(old(location)) && old(priority) == Emergency ==>
        outcome == AwaitingConfirmation && showConfirm &&
        app.requests == old(app.requests) && app.user == old(app.user) &&
        location == old(location) && description == old(description) && priority == old(priority)
      ensures !Strings.IsBlank(old(location)) && old(priority) != Emergency ==>
        outcome == Submitted(Create(old(app.user), Submission(old(category), old(priority), old(location), old(description)), id, now)) &&
        (outcome.result.Registered? ==>
          app.requests == [outcome.result.request] + old(app.requests) &&
          app.user == Some(old(app.user).value.(lastRequestTime := Some(now)))) &&
        (!outcome.result.Registered? ==> app.requests == old(app.requests) && app.user == old(app.user)) &&
        description == [] && location == [] && priority == Normal && !showConfirm
    {
      if Strings.IsBlank(location) {
        return LocationRequired;
      }
      if priority == Emergency {
        showConfirm := true;
        return AwaitingConfirmation;
      }
      var r := ProcessSubmission(app, id, now);
      outcome := Submitted(r);
    }

    /** The Cancel button of the confirmation step: creates nothing, keeps the fields. */
    method Cancel()
      modifies this`showConfirm
      ensures !showConfirm
    {
      showConfirm := false;
    }
  }
}
