/** The absent-or-present value used throughout the model: a card's `data-id`
    attribute before the server has assigned one reads as `None`. */
module Optional {

  datatype Option<+T> = None | Some(value: T)
}
