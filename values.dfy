/** Values shared by the insert and query models. */
module Values {

  datatype Option<+T> = None | Some(value: T)

  /**
   * A scalar as it appears in a metadata document, a result's metrics
   * or a flattened row. `Opaque` stands for every value the code only
   * copies and never inspects (a floating-point metric, a list, a
   * nested object); `token` tells such values apart.
   */
  datatype Value =
    | Null
    | Boolean(b: bool)
    | Integer(i: int)
    | Text(s: string)
    | Opaque(token: nat)
}
