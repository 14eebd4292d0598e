/** The store record the search engine filters (every field but `id` and `name` is nullable). */
module Stores {
  import opened Wrappers

  datatype Store = Store(
    id: int,
    name: string,
    address: Option<string>,
    city: Option<string>,
    province: Option<string>,
    postalCode: Option<string>,
    phone: Option<string>,
    email: Option<string>,
    website: Option<string>,
    category: Option<string>,
    imageUrl: Option<string>,
    description: Option<string>
  )
}
