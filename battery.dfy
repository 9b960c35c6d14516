/** The product record of the catalog that the server loads from
    `battery.json`. Prices, ratings and creation times are integers; the
    creation time stands for the parsed `createdAt` date. */
module Battery {

  datatype Product = Product(
    slug: string,
    name: string,
    description: string,
    category: string,
    brand: string,
    capacity: string,
    price: int,
    rating: int,
    createdAt: int,
    tags: seq<string>,
    stock: int)
}
