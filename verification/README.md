# Auto-ordering field of the courses app

This project models `OrderField` from the learning platform's `courses` app.
`OrderField` is a positive-integer model field that numbers records in sequence.
Right before a model instance is saved, `pre_save` checks the instance's order attribute.
- If it is already set, the value is kept and returned.
- Otherwise the field reads the persisted rows of its model.
- When `for_fields` is a non-empty list, it keeps only the rows that agree with the instance on every attribute named in `for_fields`.
- It takes the row with the largest order (`latest`) and assigns that order plus one.
- When no row remains (`latest` raises `ObjectDoesNotExist`), it assigns 0.
- The value is written onto the instance and returned.

Everything is in `order_field.dfy`, module `Fields`:

- `Record` is a persisted row: its attributes by name and its `nat` order.
- `Value` is a column value: NULL, an integer (foreign-key ids included) or text.
- `Table` is the model's persisted rows (`self.model.objects`).
- `Instance` is the unsaved model instance: attributes plus `order: Option<nat>`, where `None` is Python's `None`.
- `OrderField` is the field; `OrderField.PreSave` is `pre_save`.
- The query is modelled by three functions. `Query` is the filter dictionary built by the comprehension. `Filter` is `qs.filter(**query)`. `Latest` is `qs.latest(...)`.
- `NextOrder` is the value computed on the unset path. Its contract characterises that value directly through group membership (`InGroup`), defined independently of how the query is built.

## Model

| member | source | states |
|---|---|---|
| `Fields.OrderField.constructor` | education/courses/fields.py:8-14 | the field stores the grouping names it was given (`None` or a list, `None` by default) |
| `Fields.OrderField.PreSave` | education/courses/fields.py:16-41 | an order already present is returned and left as it is; an unset order becomes `NextOrder` of the table, is written onto the instance and returned; the returned value equals the instance's new order; the instance's other attributes and the table are unchanged |
| `Fields.Scoped` | education/courses/fields.py:28 | grouping applies exactly when `for_fields` is neither `None` nor the empty list; `None` and the empty list (the default of the constructor) both mean one sequence over the whole table |
| `Fields.Query` | education/courses/fields.py:31 | the filter dictionary has exactly the grouping names that are attributes of the instance as keys, each mapped to the instance's value for it |
| `Fields.Filter` | education/courses/fields.py:31-32 | the filtered query set holds exactly the rows that have every queried attribute with the instance's value, and is no longer than the input |
| `Fields.Latest` | education/courses/fields.py:34-37 | `latest` yields nothing exactly when the query set is empty (the `ObjectDoesNotExist` path); otherwise it yields a row of the set whose order is at least every order in the set |
| `Fields.QuerySelectsGroup` | education/courses/fields.py:28-32 | when every grouping name is an attribute of the instance, a row passes the filter dictionary exactly when it agrees with the instance on every grouping attribute |
| `Fields.NextOrder` | education/courses/fields.py:26-37 | the assigned value is 0 exactly when the instance's group has no persisted row; it is strictly greater than every order in the group; when positive, it is one more than the order of some row of the group (so it is max + 1) |
| `Fields.NextOrderUnique` | education/courses/fields.py:34-37 | the characterisation above determines the assigned value: any value that meets it is the one `NextOrder` gives |
| `Fields.GroupsIndependent` | education/courses/fields.py:28-32 | two tables that hold the same rows of the instance's group give the same value, whatever rows of other groups they hold |
| `Fields.OtherGroupsIgnored` | education/courses/fields.py:28-32 | inserting rows of other groups anywhere in the table does not change the assigned value |
| `Fields.GlobalSequence` | education/courses/fields.py:27-28 | with `for_fields` `None` or empty, the value does not depend on the instance's attributes or on which of the two forms is used; it is above every stored order, and it is 0 exactly when the table is empty |
| `Fields.SaveThenNext` | education/courses/fields.py:34-38 | once an instance is saved with its assigned value, the next instance of the same group receives exactly one more |
| `Fields.SaveKeepsOrdersUnique` | education/courses/fields.py:34-35 | if orders are unique within every group, they stay unique after saving a record with the assigned value |
| `Fields.GlobalSequenceFromEmpty` | education/courses/fields.py:27-37 | without grouping, `NextOrder` gives 0 on an empty table, then 1 once a record with 0 is stored, then 2 once records with 0 and 1 are stored, whatever the attributes |
| `Fields.ExampleTable` | education/courses/fields.py:28-35 | a module holding orders 0, 1 and 2 gives 3 while another module holds 7; that other module gives 8 |
| `Fields.ExampleGroupedSaves` | education/courses/fields.py:24-39 | `PreSave` on fresh instances of those two modules returns 3 and 8 |
| `Fields.ExampleExplicitSave` | education/courses/fields.py:40-41 | `PreSave` returns an explicit order of 5 as 5 with the group holding 0 and 9, and again as 5 on a second save |

## Left out

- The database and the query machinery are abstracted. The table is a sequence of rows. The filter and `latest` are functions on that sequence, not SQL.
- The race between reading the maximum and saving the instance under concurrent requests is not modelled. The source takes no lock.
- A name in `for_fields` that is not an attribute of the instance makes `getattr` raise. That configuration error is not modelled: `PreSave` requires the named attributes on the unset-order path.
- The source reads `last_item.order` rather than the field's own attribute name. The model assumes the field's attribute is `order`.
- Binding the field to its model (the framework's `contribute_to_class`, which sets `self.model`) is not part of this model. `PreSave` receives the table as a parameter.
- The `add` argument is accepted and ignored, as in the source. The framework's own `pre_save` on the set path is taken to return the current attribute value; that framework code is not part of this model.
- Orders are `nat`, following the positive-integer column. A negative explicit order is not modelled. Neither is the column's upper bound.
- `Fields.SaveKeepsOrdersUnique`: covers only assigned values. An explicit order is kept even when it collides with an existing one, so explicit orders can break uniqueness.
- education/courses/views.py, forms.py, models.py and templatetags/course.py hold framework configuration, views and templates. None of them is part of this model.
