/** The records the application passes between its components, and the
    Option/Result wrappers the model uses for absent values and failures. */
module Types {

  datatype Option<+T> = None | Some(value: T)

  datatype Result<+R, +E> = Success(value: R) | Failure(error: E)

  /** One extracted hog price: `price` is in VND/kg (shown in thousands). */
  datatype HogPriceData = HogPriceData(id: int, date: string, province: string, price: int)

  /** The editable columns of a record (`keyof Omit<HogPriceData, 'id'>`). */
  datatype Field = Date | Province | Price

  /** The persisted OAuth client configuration. */
  datatype GoogleCreds = GoogleCreds(clientId: string)
}
