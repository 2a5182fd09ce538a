/** Callers of the vector that rely on the operations' contracts alone. */
module DscVectorClient {
  import opened DscError
  import opened DscVector

  /** The third push_back onto a vector of capacity 2 grows it to 3. */
  method GrowthScenario(x: int, y: int, z: int)
  {
    var v, err := Create(2);
    err := PushBack(v, x);
    err := PushBack(v, y);
    assert v.Contents() == [x, y] && v.capacity == 2;
    err := PushBack(v, z);
    assert err == None && v.Contents() == [x, y, z] && v.capacity == 3;
    var e, err2 := At(v, 3);
    assert err2 == OutOfRange && e == 0;
    e, err2 := At(v, 1);
    assert err2 == None && e == y;
  }

  /** insert past the end is refused; insert and erase shift the elements. */
  method ShiftScenario(x: int, y: int, z: int)
  {
    var v, err := Create(4);
    err := PushBack(v, x);
    err := PushBack(v, y);
    assert v.Contents() == [x, y];
    var pos;
    pos, err := Insert(v, 3, z);
    assert err == OutOfRange && pos == 0 && v.Contents() == [x, y];
    pos, err := Insert(v, 1, z);
    assert pos == 1 && v.Contents() == [x, z, y];
    err := Erase(v, 3);
    assert err == OutOfRange;
    err := Erase(v, 0);
    assert err == None && v.Contents() == [z, y];
  }

  /** reserve only grows; pop_back stops at the empty vector. */
  method ReservePopScenario(x: int)
  {
    var v, err := Create(4);
    err := PushBack(v, x);
    err := Reserve(v, 4);
    assert err == InvalidArgument;
    err := Reserve(v, 10);
    assert err == None && v.capacity == 10 && v.Contents() == [x];
    err := PopBack(v);
    assert err == None;
    var empty, _ := Empty(v);
    assert empty;
    err := PopBack(v);
    assert err == EmptyContainer && v.Contents() == [];
  }

  /** A null handle is reported, never dereferenced. */
  method NullScenario(x: int)
  {
    var err := PushBack(null, x);
    assert err == InvalidArgument;
    var n, err2 := Size(null);
    assert n == 0 && err2 == InvalidArgument;
  }
}
