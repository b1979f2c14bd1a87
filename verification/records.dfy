/** The canonical product record every query works on. */
module Records {

  /** Prices are only ever compared, never combined, so a real number stands
      for the Python float the loader produces. */
  type Price = real

  datatype Record = Record(product: string, price: Price, store: string, category: string)

  /** What every record the loader keeps satisfies: the three text fields are
      filled (the category at worst with its default). */
  predicate Loaded(x: Record) {
    x.product != "" && x.store != "" && x.category != ""
  }
}
