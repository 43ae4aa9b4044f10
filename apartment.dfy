/** The normalised apartment record every building adapter produces. */
module Listing {
  import opened Wrappers

  /** One available apartment: unit identifier, rent, size in square feet and bedroom count. */
  datatype Apartment = Apartment(unit: string, rent: real, size: real, beds: int)

  /** Rent per square foot; `None` stands for the ZeroDivisionError raised when the size is zero. */
  function PerSqFt(a: Apartment): (r: Option<real>)
    ensures r.Some? <==> a.size != 0.0
    ensures r.Some? ==> r.value * a.size == a.rent
  {
    if a.size == 0.0 then None else Some(a.rent / a.size)
  }
}
