/** The optional value shared by the other modules: `std::optional`, a nullable pointer, or an
    `expected` whose error carries no information the model needs. */
module Options {
  datatype Option<+T> = None | Some(value: T)
}
