/** The registration-request entity (table T_REGISTRATION_REQUEST). */
module Model {
  import opened Wrappers

  /**
   * A guest's request to obtain an account. Every setter assigns its own field only
   * and returns the object itself, so that calls can be chained. The getters of the
   * entity are the field reads `r.id`, `r.email`, ...; each setter's contract states
   * that the matching field then holds the value passed to it.
   *
   * `id`, `message` and `createdDate` are nullable in the entity and the workflow
   * depends on their being null (a missing id, an absent message, a date to be filled
   * in); `email`, `fullname` and `status` are written non-null by the workflow and start
   * out as the empty string here.
   */
  class RegistrationRequest {
    var id: Option<string>
    var email: string
    var fullname: string
    var message: Option<string>
    var status: string
    /** Milliseconds since the epoch, as `Date.getTime` reports it. */
    var createdDate: Option<int>

    constructor ()
      ensures id == None && email == "" && fullname == "" && message == None
      ensures status == "" && createdDate == None
    {
      id := None;
      email := "";
      fullname := "";
      message := None;
      status := "";
      createdDate := None;
    }

    method SetId(id: Option<string>) returns (self: RegistrationRequest)
      modifies this
      ensures self == this && this.id == id
      ensures email == old(email) && fullname == old(fullname) && message == old(message)
      ensures status == old(status) && createdDate == old(createdDate)
    {
      this.id := id;
      self := this;
    }

    method SetEmail(email: string) returns (self: RegistrationRequest)
      modifies this
      ensures self == this && this.email == email
      ensures id == old(id) && fullname == old(fullname) && message == old(message)
      ensures status == old(status) && createdDate == old(createdDate)
    {
      this.email := email;
      self := this;
    }

    method SetFullname(fullname: string) returns (self: RegistrationRequest)
      modifies this
      ensures self == this && this.fullname == fullname
      ensures id == old(id) && email == old(email) && message == old(message)
      ensures status == old(status) && createdDate == old(createdDate)
    {
      this.fullname := fullname;
      self := this;
    }

    method SetMessage(message: Option<string>) returns (self: RegistrationRequest)
      modifies this
      ensures self == this && this.message == message
      ensures id == old(id) && email == old(email) && fullname == old(fullname)
      ensures status == old(status) && createdDate == old(createdDate)
    {
      this.message := message;
      self := this;
    }

    method SetStatus(status: string) returns (self: RegistrationRequest)
      modifies this
      ensures self == this && this.status == status
      ensures id == old(id) && email == old(email) && fullname == old(fullname)
      ensures message == old(message) && createdDate == old(createdDate)
    {
      this.status := status;
      self := this;
    }

    method SetCreatedDate(createdDate: Option<int>) returns (self: RegistrationRequest)
      modifies this
      ensures self == this && this.createdDate == createdDate
      ensures id == old(id) && email == old(email) && fullname == old(fullname)
      ensures message == old(message) && status == old(status)
    {
      this.createdDate := createdDate;
      self := this;
    }
  }
}
