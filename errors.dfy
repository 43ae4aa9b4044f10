/** The exceptions the scraper can raise, by kind. */
module Errors {

  datatype Error =
    | RequestError       // the HTTP request itself failed
    | JsonDecodeError    // a response body or embedded fragment is not valid JSON
    | KeyError           // a missing key; the typed decoded JSON never lacks one, so nothing here raises it
    | IndexError         // indexing an empty floor plan type code
    | ValueError         // int() of a character that is not a digit
    | TypeError          // subscripting the `None` that a failed info search returns
    | ZeroDivisionError  // rent per square foot of an apartment of size zero
}
