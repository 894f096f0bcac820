/** The three user roles of the system (`UserRole` / `Role`). */
module Roles {
  datatype Role = Student | Lecturer | Admin
}
