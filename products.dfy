/**
 * The catalog record of the storefront's mock data layer.
 *
 * Money is held in integer cents (59.99 is 5999) and ratings in half points
 * (a rating of 4.5 is 9), so every comparison the data layer makes is exact.
 */
module Products {

  datatype Product = Product(
    id: string,
    name: string,
    price: int,
    image: string,
    description: string,
    rating: int,
    discount: int,
    isNew: bool,
    features: seq<string>,
    stock: int,
    brand: string,
    category: string)
}
