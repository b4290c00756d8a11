/** The outcome of a field validator in server/models.py: the validator either
    returns the value it was given or raises ValueError with a fixed message.
    Each message becomes one constructor of ValidationError. */
module Validation {

  datatype ValidationError =
    | NameRequired
    | NameNotUnique
    | BadPhone
    | ContentTooShort
    | SummaryTooLong
    | BadCategory
    | NotClickbait
  {
    /** The text of the ValueError the source raises for this error. */
    function Message(): string {
      match this
      case NameRequired => "Author name is required."
      case NameNotUnique => "Author name must be unique."
      case BadPhone => "Phone number must be exactly 10 digits."
      case ContentTooShort => "Post content must be at least 250 characters long."
      case SummaryTooLong => "Post summary must be a maximum of 250 characters."
      case BadCategory => "Post category must be either 'Fiction' or 'Non-Fiction'."
      case NotClickbait =>
        "Post title must be clickbait-y and contain one of the following: 'Won't Believe', 'Secret', 'Top', 'Guess'."
    }
  }

  /** Each error has its own message, so the message tells which check
      rejected the value. */
  lemma MessageIdentifiesError(e1: ValidationError, e2: ValidationError)
    requires e1 != e2
    ensures e1.Message() != e2.Message()
  {
    MessageLength(e1);
    MessageLength(e2);
  }

  /** The length of each message, all seven different. */
  lemma MessageLength(e: ValidationError)
    ensures |e.Message()| == match e
      case NameRequired => 24
      case NameNotUnique => 27
      case BadPhone => 39
      case ContentTooShort => 50
      case SummaryTooLong => 49
      case BadCategory => 56
      case NotClickbait => 107
  {
  }

  /** Ok(v): the validator returned v. Err(e): it raised ValueError(e.Message()). */
  datatype Result<+T> = Ok(value: T) | Err(error: ValidationError)
}
