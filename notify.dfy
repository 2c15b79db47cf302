/**
 * The notifications the workers hand to the chat sender. Each message keeps the values its template
 * interpolates; the checkout digest is already text because its template only concatenates strings.
 */
module Notify {
  import opened Values

  datatype Message =
    | NewReservation(propertyName: string, guestName: string, arrival: int, departure: int)
    | UpdatedReservation(propertyName: string, guestName: string, arrival: int, departure: int,
                         guestCount: Option<int>, arrivalTime: Option<string>,
                         contactPhone: Option<string>, safebox: Option<string>,
                         requestDescriptions: seq<Option<string>>)
    | CheckoutTomorrow(propertyName: string, guestName: string, departure: int,
                       guestCount: Option<int>, contactPhone: Option<string>)
    | Digest(text: string)
}
