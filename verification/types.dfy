/** The record shapes the stores work with. A meal's instant is milliseconds
    since the epoch; the user record keeps its dates as the ISO strings the
    client writes. */
module Types {
  import opened Wrappers

  /** What the calorie lookup answers for a dish and a number of servings. */
  datatype CalorieResponse = CalorieResponse(
    dishName: string,
    servings: real,
    caloriesPerServing: real,
    totalCalories: real,
    source: string)

  /** One logged meal: the lookup's answer plus an id and the instant it was logged. */
  datatype Meal = Meal(
    id: string,
    dishName: string,
    servings: real,
    caloriesPerServing: real,
    totalCalories: real,
    timestamp: int,
    source: string)

  /** The signed-in user as the client keeps it. */
  datatype AuthUser = AuthUser(
    id: string,
    firstName: string,
    lastName: string,
    email: string,
    isActive: bool,
    lastLogin: Option<string>,
    createdAt: string,
    updatedAt: string,
    fullName: string)

  datatype LoginCredentials = LoginCredentials(email: string, password: string)

  datatype RegisterCredentials = RegisterCredentials(firstName: string, lastName: string, email: string, password: string)

  /** The server's answer to a login or a registration. */
  datatype AuthResponse = AuthResponse(message: Option<string>, token: string)

  datatype Theme = Light | Dark | System
}
