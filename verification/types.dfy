/** The storefront's shared record type and the optional-value wrapper used
    for the product list, which is absent until the product query resolves. */
module Types {

  /** Absent-or-present value; `None` is the product list before it loads. */
  datatype Option<+T> = None | Some(value: T)

  /** One product record. The storefront uses the same record for catalog
      products and for cart lines: `amount` is the quantity held when the
      record is a cart line. Prices are plain numbers (no rounding); ids and
      amounts are integers. `description` and `image` are passed through. */
  datatype Item = Item(
    id: int,
    category: string,
    description: string,
    image: string,
    price: real,
    title: string,
    amount: int
  )
}
